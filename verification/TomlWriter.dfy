/**
 The TOML writer (tools/src/toml.c, `toml_dumps` and below).
 */
module TomlWriter {
  import opened Wrappers
  import opened Strings
  import opened TomlTree

  const MAX_DEPTH: nat := 64

  // ------------------------------------------------------------------
  // The text of keys and values
  // ------------------------------------------------------------------

  predicate IsAlnum(c: char) { IsDigit(c) || 'a' <= c <= 'z' || 'A' <= c <= 'Z' }

  predicate IsBare(c: char) { IsAlnum(c) || c == '_' || c == '-' }

  predicate AllBare(s: string) { forall i :: 0 <= i < |s| ==> IsBare(s[i]) }

  predicate BareSafe(s: string) { s != "" && AllBare(s) }

  function HexDigit(n: nat): char
    requires n < 16
  {
    if n < 10 then '0' + n as char else 'A' + (n - 10) as char
  }

  function Escaped(c: char): string {
    if c == '"' then ['\\', '"']
    else if c == '\\' then ['\\', '\\']
    else if c == '\n' then ['\\', 'n']
    else if c == '\t' then ['\\', 't']
    else if c == '\r' then ['\\', 'r']
    else if c == 8 as char then ['\\', 'b']
    else if c == 12 as char then ['\\', 'f']
    else if c as int < 0x20 then ['\\', 'u', '0', '0', HexDigit(c as nat / 16), HexDigit(c as nat % 16)]
    else [c]
  }

  function EscapedAll(s: string): string {
    if s == "" then "" else Escaped(s[0]) + EscapedAll(s[1..])
  }

  function Quoted(s: string): string { "\"" + EscapedAll(s) + "\"" }

  function KeyText(key: string): string { if BareSafe(key) then key else Quoted(key) }

  function IntText(i: int): string { if i < 0 then "-" + Digits(-i) else Digits(i) }

  function ValueText(libc: Libc, v: Value): string
    decreases v
  {
    match v
    case Str(s) => Quoted(s)
    case Int(i) => IntText(i)
    case Float(d) => FloatText(libc, d)
    case Bool(b) => if b then "true" else "false"
    case Arr(items) => "[" + ItemsText(libc, items) + "]"
    case Table(_) => "{}"
  }

  /** The items, separated by commas. */
  function ItemsText(libc: Libc, items: seq<Value>): string
    decreases items
  {
    if items == [] then ""
    else ValueText(libc, items[0]) + MoreItems(libc, items[1..])
  }

  /** The items, each preceded by a comma. */
  function MoreItems(libc: Libc, items: seq<Value>): string
    decreases items
  {
    if items == [] then ""
    else ", " + ValueText(libc, items[0]) + MoreItems(libc, items[1..])
  }

  // ------------------------------------------------------------------
  // The text of tables
  // ------------------------------------------------------------------

  function ScalarLine(libc: Libc, m: Member): string {
    KeyText(m.key) + " = " + ValueText(libc, m.val) + "\n"
  }

  function ScalarLines(libc: Libc, ms: Members): string {
    if ms == [] then ""
    else (if ms[0].val.Table? then "" else ScalarLine(libc, ms[0])) + ScalarLines(libc, ms[1..])
  }

  function PathText(path: Path): string {
    if path == [] then "" else KeyText(path[0]) + MorePath(path[1..])
  }

  /** The segments, each preceded by a dot. */
  function MorePath(path: Path): string {
    if path == [] then "" else "." + KeyText(path[0]) + MorePath(path[1..])
  }

  function Header(path: Path): string { "[" + PathText(path) + "]\n" }

  /** A header, after a blank line when something precedes it. */
  function Opening(path: Path, nl: bool): string { (if nl then "\n" else "") + Header(path) }

  /** The sub-tables with their headers; None when a header would exceed 63 segments.  `nl` says
      whether a blank line separates the first one from what precedes it. */
  function SubTables(libc: Libc, ms: Members, path: Path, nl: bool): Option<string>
    decreases ms, 0
  {
    if ms == [] then Some("")
    else
      match ms[0].val
      case Table(sub) =>
        if |path| >= MAX_DEPTH - 1 then None
        else
          (match TableText(libc, sub, path + [ms[0].key])
           case None => None
           case Some(body) =>
             match SubTables(libc, ms[1..], path, true)
             case None => None
             case Some(rest) => Some(Opening(path + [ms[0].key], nl) + body + rest))
      case _ => SubTables(libc, ms[1..], path, nl)
  }

  function TableText(libc: Libc, ms: Members, path: Path): Option<string>
    decreases ms, 1
  {
    match SubTables(libc, ms, path, ScalarsOf(ms) != [])
    case None => None
    case Some(text) => Some(ScalarLines(libc, ms) + text)
  }

  /** toml_dumps. */
  function Dumps(libc: Libc, v: Value): Option<string> {
    match v
    case Table(ms) => TableText(libc, ms, [])
    case _ => None
  }

  // ------------------------------------------------------------------
  // Nesting is the only thing the writer refuses
  // ------------------------------------------------------------------

  /** The length of the longest header path below a table at depth n. */
  function Deepest(ms: Members, n: nat): nat
    decreases ms
  {
    if ms == [] then n
    else
      var rest := Deepest(ms[1..], n);
      match ms[0].val
      case Table(sub) => var d := Deepest(sub, n + 1); if d > rest then d else rest
      case _ => rest
  }

  lemma {:induction false} DeepestAtLeast(ms: Members, n: nat)
    ensures Deepest(ms, n) >= n
    decreases ms
  {
    if ms != [] {
      DeepestAtLeast(ms[1..], n);
    }
  }

  lemma {:induction false} SubTablesSome(libc: Libc, ms: Members, path: Path, nl: bool)
    requires |path| <= MAX_DEPTH - 1
    ensures SubTables(libc, ms, path, nl).Some? <==> Deepest(ms, |path|) <= MAX_DEPTH - 1
    decreases ms, 0
  {
    if ms != [] {
      match ms[0].val
      case Table(sub) =>
        DeepestAtLeast(sub, |path| + 1);
        SubTablesSome(libc, ms[1..], path, true);
        if |path| < MAX_DEPTH - 1 {
          SubTablesSome(libc, sub, path + [ms[0].key], ScalarsOf(sub) != []);
        }
      case _ => SubTablesSome(libc, ms[1..], path, nl);
    }
  }

  /** toml_dumps refuses a table exactly when some header would have more than 63 segments. */
  lemma DumpsRefusesOnlyDepth(libc: Libc, ms: Members)
    ensures Dumps(libc, Table(ms)).Some? <==> Deepest(ms, 0) <= 63
  {
    SubTablesSome(libc, ms, [], ScalarsOf(ms) != []);
  }

  // ------------------------------------------------------------------
  // The writer
  // ------------------------------------------------------------------

  lemma EscapedStep(done: string, s: string, i: nat)
    requires i < |s|
    ensures done + Escaped(s[i]) + EscapedAll(s[i + 1..]) == done + EscapedAll(s[i..])
  {
    assert s[i..][1..] == s[i + 1..];
    Assoc(done, Escaped(s[i]), EscapedAll(s[i + 1..]));
  }

  function ItemsFrom(libc: Libc, items: seq<Value>, i: nat): string
    requires i <= |items|
  {
    if i == 0 then ItemsText(libc, items) else MoreItems(libc, items[i..])
  }

  lemma ItemsStep(libc: Libc, done: string, items: seq<Value>, i: nat)
    requires i < |items|
    ensures done + (if i > 0 then ", " else "") + ValueText(libc, items[i]) + ItemsFrom(libc, items, i + 1) ==
            done + ItemsFrom(libc, items, i)
  {
    var sep, item, rest := if i > 0 then ", " else "", ValueText(libc, items[i]), MoreItems(libc, items[i + 1..]);
    assert items[i..][1..] == items[i + 1..];
    Assoc(done, sep, item);
    Assoc(done, sep + item, rest);
    assert "" + item == item;
  }

  function PathFrom(path: Path, i: nat): string
    requires i <= |path|
  {
    if i == 0 then PathText(path) else MorePath(path[i..])
  }

  lemma PathStep(done: string, path: Path, i: nat)
    requires i < |path|
    ensures done + (if i > 0 then "." else "") + KeyText(path[i]) + PathFrom(path, i + 1) == done + PathFrom(path, i)
  {
    var sep, key, rest := if i > 0 then "." else "", KeyText(path[i]), MorePath(path[i + 1..]);
    assert path[i..][1..] == path[i + 1..];
    Assoc(done, sep, key);
    Assoc(done, sep + key, rest);
    assert "" + key == key;
  }

  lemma ScalarsStep(libc: Libc, done: string, ms: Members, i: nat)
    requires i < |ms|
    ensures done + (if ms[i].val.Table? then "" else ScalarLine(libc, ms[i])) + ScalarLines(libc, ms[i + 1..]) ==
            done + ScalarLines(libc, ms[i..])
    ensures ScalarsOf(ms[i..]) != [] <==> !ms[i].val.Table? || ScalarsOf(ms[i + 1..]) != []
  {
    assert ms[i..][1..] == ms[i + 1..];
    Assoc(done, if ms[i].val.Table? then "" else ScalarLine(libc, ms[i]), ScalarLines(libc, ms[i + 1..]));
  }

  /** What remains to be written of the sub-tables from the i-th member on. */
  ghost predicate Remaining(libc: Libc, done: string, ms: Members, i: nat, path: Path, nl: bool, want: Option<string>)
    requires i <= |ms|
  {
    var rest := SubTables(libc, ms[i..], path, nl);
    rest.Some? == want.Some? && (want.Some? ==> done + rest.value == want.value)
  }

  lemma SubTablesSkip(libc: Libc, done: string, ms: Members, i: nat, path: Path, nl: bool, want: Option<string>)
    requires i < |ms| && !ms[i].val.Table?
    requires Remaining(libc, done, ms, i, path, nl, want)
    ensures Remaining(libc, done, ms, i + 1, path, nl, want)
  {
    assert ms[i..][1..] == ms[i + 1..];
  }

  lemma SubTablesStep(libc: Libc, done: string, ms: Members, i: nat, path: Path, nl: bool, want: Option<string>,
                      key: string, sub: Members)
    requires i < |ms| && ms[i] == Member(key, Table(sub))
    requires Remaining(libc, done, ms, i, path, nl, want)
    ensures |path| >= MAX_DEPTH - 1 || TableText(libc, sub, path + [key]).None? ==> want.None?
    ensures |path| < MAX_DEPTH - 1 && TableText(libc, sub, path + [key]).Some? ==>
              Remaining(libc, done + Opening(path + [key], nl) + TableText(libc, sub, path + [key]).value,
                        ms, i + 1, path, true, want)
  {
    assert ms[i..][1..] == ms[i + 1..];
    if |path| < MAX_DEPTH - 1 && TableText(libc, sub, path + [key]).Some? {
      var rest := SubTables(libc, ms[i + 1..], path, true);
      if rest.Some? {
        var opening, body := Opening(path + [key], nl), TableText(libc, sub, path + [key]).value;
        assert SubTables(libc, ms[i..], path, nl).value == opening + body + rest.value;
        Assoc(done, opening, body);
        Assoc(done, opening + body, rest.value);
      }
    }
  }

  /** The memory stream toml_dumps writes to. */
  class Stream {
    var out: string

    constructor ()
      ensures out == ""
    {
      out := "";
    }

    method Put(s: string)
      modifies this
      ensures out == old(out) + s
    {
      out := out + s;
    }

    method DumpString(s: string)
      modifies this
      ensures out == old(out) + Quoted(s)
    {
      Put("\"");
      ghost var start := out;
      var i := 0;
      assert s[0..] == s;
      while i < |s|
        invariant 0 <= i <= |s|
        invariant out + EscapedAll(s[i..]) == start + EscapedAll(s)
      {
        EscapedStep(out, s, i);
        Put(Escaped(s[i]));
        i := i + 1;
      }
      assert out + "" == out;
      Put("\"");
      Assoc(old(out), "\"", EscapedAll(s));
      Assoc(old(out), "\"" + EscapedAll(s), "\"");
    }

    method DumpPathKey(key: string)
      modifies this
      ensures out == old(out) + KeyText(key)
    {
      if BareSafe(key) {
        Put(key);
      } else {
        DumpString(key);
      }
    }

    method DumpFloat(libc: Libc, d: real)
      modifies this
      ensures out == old(out) + FloatText(libc, d)
    {
      var num := libc.fmt(d);
      Put(num);
      if !(Marked(num) || 'n' in num) {
        Put(".0");
        Assoc(old(out), num, ".0");
      }
    }

    method DumpValue(libc: Libc, v: Value)
      modifies this
      ensures out == old(out) + ValueText(libc, v)
      decreases v, 1
    {
      match v
      case Str(s) => DumpString(s);
      case Int(i) => Put(IntText(i));
      case Float(d) => DumpFloat(libc, d);
      case Bool(b) => Put(if b then "true" else "false");
      case Arr(items) => DumpArray(libc, items);
      case Table(_) => Put("{}");
    }

    method DumpArray(libc: Libc, items: seq<Value>)
      modifies this
      ensures out == old(out) + ("[" + ItemsText(libc, items) + "]")
      decreases items, 0
    {
      Put("[");
      ghost var start, all := out, ItemsText(libc, items);
      var i := 0;
      while i < |items|
        invariant 0 <= i <= |items|
        invariant out + ItemsFrom(libc, items, i) == start + all
      {
        ItemsStep(libc, out, items, i);
        ghost var before := out;
        if i > 0 {
          Put(", ");
        } else {
          assert out + "" == out;
        }
        DumpValue(libc, items[i]);
        i := i + 1;
      }
      assert ItemsFrom(libc, items, i) == "";
      assert out + "" == out;
      Put("]");
      Assoc(old(out), "[", all);
      Assoc(old(out), "[" + all, "]");
    }

    method DumpHeader(segs: Path, key: string)
      modifies this
      ensures out == old(out) + Header(segs + [key])
    {
      Put("[");
      ghost var start, path := out, segs + [key];
      for j := 0 to |segs|
        invariant out + PathFrom(path, j) == start + PathText(path)
      {
        PathStep(out, path, j);
        if j > 0 {
          Put(".");
        } else {
          assert out + "" == out;
        }
        DumpPathKey(segs[j]);
      }
      PathStep(out, path, |segs|);
      if |segs| > 0 {
        Put(".");
      } else {
        assert out + "" == out;
      }
      DumpPathKey(key);
      assert out + "" == out;
      Put("]\n");
      Assoc(old(out), "[", PathText(path));
      Assoc(old(out), "[" + PathText(path), "]\n");
    }

    method DumpScalarLine(libc: Libc, m: Member)
      modifies this
      ensures out == old(out) + ScalarLine(libc, m)
    {
      DumpPathKey(m.key);
      Put(" = ");
      DumpValue(libc, m.val);
      Put("\n");
      Assoc(old(out), KeyText(m.key), " = ");
      Assoc(old(out), KeyText(m.key) + " = ", ValueText(libc, m.val));
      Assoc(old(out), KeyText(m.key) + " = " + ValueText(libc, m.val), "\n");
    }

    method DumpScalars(libc: Libc, ms: Members) returns (needNl: bool)
      modifies this
      ensures out == old(out) + ScalarLines(libc, ms)
      ensures needNl <==> ScalarsOf(ms) != []
    {
      needNl := false;
      var i := 0;
      assert ms[0..] == ms;
      while i < |ms|
        invariant 0 <= i <= |ms|
        invariant out + ScalarLines(libc, ms[i..]) == old(out) + ScalarLines(libc, ms)
        invariant (needNl || ScalarsOf(ms[i..]) != []) <==> ScalarsOf(ms) != []
      {
        ScalarsStep(libc, out, ms, i);
        if !ms[i].val.Table? {
          DumpScalarLine(libc, ms[i]);
          needNl := true;
        } else {
          assert out + "" == out;
        }
        i := i + 1;
      }
      assert out + "" == out;
    }

    method DumpOpening(segs: Path, key: string, needNl: bool)
      modifies this
      ensures out == old(out) + Opening(segs + [key], needNl)
    {
      if needNl {
        Put("\n");
        Assoc(old(out), "\n", Header(segs + [key]));
      } else {
        assert "" + Header(segs + [key]) == Header(segs + [key]);
      }
      DumpHeader(segs, key);
    }

    /** One sub-table: its header and its contents. */
    method DumpSubTable(libc: Libc, key: string, sub: Members, segs: Path, needNl: bool) returns (rc: int)
      requires |segs| < MAX_DEPTH - 1
      modifies this
      ensures rc == if TableText(libc, sub, segs + [key]).Some? then 0 else -1
      ensures rc == 0 ==>
                out == old(out) + Opening(segs + [key], needNl) + TableText(libc, sub, segs + [key]).value
      decreases sub, 2
    {
      DumpOpening(segs, key, needNl);
      rc := DumpTable(libc, sub, segs + [key]);
    }

    method DumpSubTables(libc: Libc, ms: Members, segs: Path, needNl: bool) returns (rc: int)
      modifies this
      ensures rc == if SubTables(libc, ms, segs, needNl).Some? then 0 else -1
      ensures rc == 0 ==> out == old(out) + SubTables(libc, ms, segs, needNl).value
      decreases ms, 0
    {
      ghost var all := SubTables(libc, ms, segs, needNl);
      ghost var want := if all.Some? then Some(out + all.value) else None;
      var i, nl := 0, needNl;
      assert ms[0..] == ms;
      while i < |ms|
        invariant 0 <= i <= |ms|
        invariant Remaining(libc, out, ms, i, segs, nl, want)
      {
        if ms[i].val.Table? {
          SubTablesStep(libc, out, ms, i, segs, nl, want, ms[i].key, ms[i].val.members);
          if |segs| >= MAX_DEPTH - 1 {
            return -1;
          }
          var sub := DumpSubTable(libc, ms[i].key, ms[i].val.members, segs, nl);
          if sub < 0 {
            return -1;
          }
          nl := true;
        } else {
          SubTablesSkip(libc, out, ms, i, segs, nl, want);
        }
        i := i + 1;
      }
      assert out + "" == out;
      return 0;
    }

    /** dump_table: -1 when the table nests too deeply. */
    method DumpTable(libc: Libc, ms: Members, segs: Path) returns (rc: int)
      modifies this
      ensures rc == if TableText(libc, ms, segs).Some? then 0 else -1
      ensures rc == 0 ==> out == old(out) + TableText(libc, ms, segs).value
      decreases ms, 1
    {
      var needNl := DumpScalars(libc, ms);
      rc := DumpSubTables(libc, ms, segs, needNl);
      if rc == 0 {
        Assoc(old(out), ScalarLines(libc, ms), SubTables(libc, ms, segs, needNl).value);
      }
    }
  }

  method TomlDumps(libc: Libc, v: Value) returns (text: Option<string>)
    ensures text == Dumps(libc, v)
  {
    if !v.Table? {
      return None;
    }
    var f := new Stream();
    var rc := f.DumpTable(libc, v.members, []);
    if rc < 0 {
      return None;
    }
    ghost var text' := TableText(libc, v.members, []).value;
    assert "" + text' == text';
    return Some(f.out);
  }
}
