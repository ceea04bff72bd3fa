/**
 TOML trees (tools/src/toml.c): values, tables as ordered member lists, and access by key path.
 Strings are C strings, that is, sequences without NUL.
 */
module TomlTree {
  import opened Wrappers
  import opened Strings

  datatype Value =
    | Str(s: string)
    | Int(i: int)
    | Float(d: real)
    | Bool(b: bool)
    | Arr(items: seq<Value>)
    | Table(members: seq<Member>)

  datatype Member = Member(key: string, val: Value)

  type Members = seq<Member>

  type Path = seq<string>

  /** The C library's number formatting and parsing: `fmt` is "%.15g", `strtod` yields a value exactly
      when it consumes the whole token. */
  datatype Libc = Libc(fmt: real -> string, strtod: string -> Option<real>)

  // ------------------------------------------------------------------
  // Lookup and update by key
  // ------------------------------------------------------------------

  /** toml_table_get_short: the first member with this key. */
  function Get(ms: Members, key: string): Option<Value> {
    if ms == [] then None
    else if ms[0].key == key then Some(ms[0].val)
    else Get(ms[1..], key)
  }

  /** The first member with this key gets a new value. */
  function SetVal(ms: Members, key: string, v: Value): Members {
    if ms == [] then []
    else if ms[0].key == key then [Member(key, v)] + ms[1..]
    else [ms[0]] + SetVal(ms[1..], key, v)
  }

  ghost predicate Unique(ms: Members) {
    forall i, j :: 0 <= i < j < |ms| ==> ms[i].key != ms[j].key
  }

  lemma {:induction false} GetIndex(ms: Members, key: string)
    ensures Get(ms, key).None? <==> forall i :: 0 <= i < |ms| ==> ms[i].key != key
  {
    if ms != [] {
      GetIndex(ms[1..], key);
      if Get(ms, key).None? {
        forall i | 0 <= i < |ms| ensures ms[i].key != key {
          if i > 0 {
            assert ms[1..][i - 1] == ms[i];
          }
        }
      } else if ms[0].key != key {
        var i :| 0 <= i < |ms[1..]| && ms[1..][i].key == key;
        assert ms[i + 1].key == key;
      }
    }
  }

  lemma {:induction false} GetAppend(ms: Members, m: Member, key: string)
    ensures Get(ms + [m], key) ==
            if Get(ms, key).Some? then Get(ms, key) else if m.key == key then Some(m.val) else None
  {
    if ms == [] {
      assert (ms + [m])[1..] == [];
    } else {
      assert (ms + [m])[1..] == ms[1..] + [m];
      GetAppend(ms[1..], m, key);
    }
  }

  lemma {:induction false} GetSetVal(ms: Members, key: string, v: Value, other: string)
    ensures Get(SetVal(ms, key, v), other) ==
            if other == key && Get(ms, key).Some? then Some(v) else Get(ms, other)
  {
    if ms != [] {
      var r := SetVal(ms, key, v);
      if ms[0].key == key {
        assert r[1..] == ms[1..];
      } else {
        assert r[1..] == SetVal(ms[1..], key, v);
        GetSetVal(ms[1..], key, v, other);
      }
    }
  }

  lemma {:induction false} SetValTwice(ms: Members, key: string, v: Value, w: Value)
    ensures SetVal(SetVal(ms, key, v), key, w) == SetVal(ms, key, w)
  {
    if ms != [] {
      var r := SetVal(ms, key, v);
      if ms[0].key == key {
        assert r[1..] == ms[1..];
      } else {
        assert r[1..] == SetVal(ms[1..], key, v);
        SetValTwice(ms[1..], key, v, w);
      }
    }
  }

  lemma {:induction false} SetValSame(ms: Members, key: string)
    requires Get(ms, key).Some?
    ensures SetVal(ms, key, Get(ms, key).value) == ms
  {
    if ms[0].key != key {
      SetValSame(ms[1..], key);
    }
    assert ms == [ms[0]] + ms[1..];
  }

  lemma {:induction false} SetValLast(ms: Members, key: string, v: Value, w: Value)
    requires Get(ms, key).None?
    ensures SetVal(ms + [Member(key, v)], key, w) == ms + [Member(key, w)]
  {
    if ms == [] {
      assert (ms + [Member(key, v)])[1..] == [];
    } else {
      assert (ms + [Member(key, v)])[1..] == ms[1..] + [Member(key, v)];
      SetValLast(ms[1..], key, v, w);
    }
  }

  // ------------------------------------------------------------------
  // Access by path
  // ------------------------------------------------------------------

  /** The members of the table at a path, when there is one. */
  function At(ms: Members, path: Path): Option<Members>
    decreases |path|
  {
    if path == [] then Some(ms)
    else
      match Get(ms, path[0])
      case Some(Table(sub)) => At(sub, path[1..])
      case _ => None
  }

  /** The tree with the table at a path replaced. */
  function Put(ms: Members, path: Path, new_: Members): Members
    requires At(ms, path).Some?
    decreases |path|
  {
    if path == [] then new_
    else SetVal(ms, path[0], Table(Put(Get(ms, path[0]).value.members, path[1..], new_)))
  }

  /** enter: walk to a table, creating what is missing; None when the path crosses another value. */
  function Enter(ms: Members, path: Path): Option<Members>
    decreases |path|
  {
    if path == [] then Some(ms)
    else
      match Get(ms, path[0])
      case None =>
        (match Enter([], path[1..])
         case Some(sub) => Some(ms + [Member(path[0], Table(sub))])
         case None => None)
      case Some(Table(sub)) =>
        (match Enter(sub, path[1..])
         case Some(sub') => Some(SetVal(ms, path[0], Table(sub')))
         case None => None)
      case Some(_) => None
  }

  /** toml_table_add into the table at a path; None on a duplicate key. */
  function AddAt(ms: Members, path: Path, key: string, v: Value): Option<Members> {
    match At(ms, path)
    case None => None
    case Some(t) => if Get(t, key).Some? then None else Some(Put(ms, path, t + [Member(key, v)]))
  }

  lemma {:induction false} AtPut(ms: Members, path: Path, x: Members)
    requires At(ms, path).Some?
    ensures At(Put(ms, path, x), path) == Some(x)
    decreases |path|
  {
    if path != [] {
      var sub := Get(ms, path[0]).value.members;
      AtPut(sub, path[1..], x);
      GetSetVal(ms, path[0], Table(Put(sub, path[1..], x)), path[0]);
    }
  }

  lemma {:induction false} PutPut(ms: Members, path: Path, x: Members, y: Members)
    requires At(ms, path).Some?
    ensures At(Put(ms, path, x), path).Some? && Put(Put(ms, path, x), path, y) == Put(ms, path, y)
    decreases |path|
  {
    AtPut(ms, path, x);
    if path != [] {
      var sub := Get(ms, path[0]).value.members;
      var v := Table(Put(sub, path[1..], x));
      GetSetVal(ms, path[0], v, path[0]);
      PutPut(sub, path[1..], x, y);
      SetValTwice(ms, path[0], v, Table(Put(sub, path[1..], y)));
    }
  }

  lemma {:induction false} PutSame(ms: Members, path: Path)
    requires At(ms, path).Some?
    ensures Put(ms, path, At(ms, path).value) == ms
    decreases |path|
  {
    if path != [] {
      PutSame(Get(ms, path[0]).value.members, path[1..]);
      SetValSame(ms, path[0]);
    }
  }

  /** One key further down. */
  lemma {:induction false} PutDeeper(ms: Members, path: Path, key: string, x: Members)
    requires At(ms, path).Some?
    requires Get(At(ms, path).value, key).Some? && Get(At(ms, path).value, key).value.Table?
    ensures At(ms, path + [key]) == Some(Get(At(ms, path).value, key).value.members)
    ensures Put(ms, path + [key], x) == Put(ms, path, SetVal(At(ms, path).value, key, Table(x)))
    decreases |path|
  {
    var p := path + [key];
    if path == [] {
      assert p[1..] == [];
    } else {
      assert p[1..] == path[1..] + [key];
      PutDeeper(Get(ms, path[0]).value.members, path[1..], key, x);
    }
  }

  lemma {:induction false} EnterExisting(ms: Members, path: Path)
    requires At(ms, path).Some?
    ensures Enter(ms, path) == Some(ms)
    decreases |path|
  {
    if path != [] {
      EnterExisting(Get(ms, path[0]).value.members, path[1..]);
      SetValSame(ms, path[0]);
    }
  }

  /** Entering a missing table of an existing one adds it, empty. */
  lemma {:induction false} EnterNew(ms: Members, path: Path, key: string)
    requires At(ms, path).Some? && Get(At(ms, path).value, key).None?
    ensures Enter(ms, path + [key]) == Some(Put(ms, path, At(ms, path).value + [Member(key, Table([]))]))
    decreases |path|
  {
    var p := path + [key];
    if path == [] {
      assert p[1..] == [];
    } else {
      assert p[1..] == path[1..] + [key];
      EnterNew(Get(ms, path[0]).value.members, path[1..], key);
    }
  }

  /** After entering, the table is there. */
  lemma {:induction false} EnterReaches(ms: Members, path: Path)
    requires Enter(ms, path).Some?
    ensures At(Enter(ms, path).value, path).Some?
    decreases |path|
  {
    if path != [] {
      match Get(ms, path[0])
      case None =>
        EnterReaches([], path[1..]);
        GetAppend(ms, Member(path[0], Table(Enter([], path[1..]).value)), path[0]);
      case Some(v) =>
        EnterReaches(v.members, path[1..]);
        GetSetVal(ms, path[0], Table(Enter(v.members, path[1..]).value), path[0]);
    }
  }

  /** Entering goes one table further at a time. */
  lemma {:induction false} EnterStep(ms: Members, path: Path, key: string)
    ensures Enter(ms, path + [key]) ==
            if Enter(ms, path).Some? then Enter(Enter(ms, path).value, path + [key]) else None
    decreases |path|
  {
    var p := path + [key];
    if path != [] {
      assert p[0] == path[0] && p[1..] == path[1..] + [key];
      match Get(ms, path[0])
      case None =>
        EnterStep([], path[1..], key);
        if Enter([], path[1..]).Some? {
          var sub := Enter([], path[1..]).value;
          GetAppend(ms, Member(path[0], Table(sub)), path[0]);
          if Enter(sub, p[1..]).Some? {
            SetValLast(ms, path[0], Table(sub), Table(Enter(sub, p[1..]).value));
          }
        }
      case Some(Table(sub)) =>
        EnterStep(sub, path[1..], key);
        if Enter(sub, path[1..]).Some? {
          var sub' := Enter(sub, path[1..]).value;
          GetSetVal(ms, path[0], Table(sub'), path[0]);
          if Enter(sub', p[1..]).Some? {
            SetValTwice(ms, path[0], Table(sub'), Table(Enter(sub', p[1..]).value));
          }
        }
      case Some(_) =>
    }
  }

  /** A value that is no table cannot be entered. */
  lemma {:induction false} EnterCrosses(ms: Members, path: Path, key: string, more: Path)
    requires At(ms, path).Some?
    requires Get(At(ms, path).value, key).Some? && !Get(At(ms, path).value, key).value.Table?
    ensures Enter(ms, path + [key] + more).None?
    decreases |path|
  {
    var p := path + [key] + more;
    if path == [] {
      assert p[0] == key;
    } else {
      assert p[0] == path[0] && p[1..] == path[1..] + [key] + more;
      EnterCrosses(Get(ms, path[0]).value.members, path[1..], key, more);
    }
  }

  /** A member is added at the end of its table unless its key is there already, and nothing else changes. */
  lemma AddAtMeans(ms: Members, path: Path, key: string, v: Value)
    ensures AddAt(ms, path, key, v).Some? <==> At(ms, path).Some? && Get(At(ms, path).value, key).None?
    ensures AddAt(ms, path, key, v).Some? ==>
              var r := AddAt(ms, path, key, v).value;
              && At(r, path) == Some(At(ms, path).value + [Member(key, v)])
              && Put(r, path, At(ms, path).value) == ms
  {
    if At(ms, path).Some? {
      AtPut(ms, path, At(ms, path).value + [Member(key, v)]);
      PutPut(ms, path, At(ms, path).value + [Member(key, v)], At(ms, path).value);
      PutSame(ms, path);
    }
  }

  // ------------------------------------------------------------------
  // Normal form: scalars before sub-tables
  // ------------------------------------------------------------------

  function ScalarsOf(ms: Members): Members {
    if ms == [] then []
    else (if ms[0].val.Table? then [] else [ms[0]]) + ScalarsOf(ms[1..])
  }

  /** The sub-tables, each in normal form. */
  function TablesOf(ms: Members): Members
    decreases ms, 0
  {
    if ms == [] then []
    else
      match ms[0].val
      case Table(sub) => [Member(ms[0].key, Table(Normal(sub)))] + TablesOf(ms[1..])
      case _ => TablesOf(ms[1..])
  }

  /** Every table's scalars moved before its sub-tables. */
  function Normal(ms: Members): Members
    decreases ms, 1
  {
    ScalarsOf(ms) + TablesOf(ms)
  }

  // ------------------------------------------------------------------
  // Which trees can be written and read back
  // ------------------------------------------------------------------

  predicate InRange(i: int) { -0x8000_0000_0000_0000 <= i < 0x8000_0000_0000_0000 }

  /** t continues a decimal literal: digits, dots, and exponent markers once there was a digit. */
  predicate LiteralTail(t: string, digits: bool) {
    if t == "" then digits
    else if IsDigit(t[0]) then LiteralTail(t[1..], true)
    else if t[0] == '.' then LiteralTail(t[1..], digits)
    else if (t[0] == 'e' || t[0] == 'E') && digits then
      if |t| > 1 && (t[1] == '+' || t[1] == '-') then LiteralTail(t[2..], digits)
      else LiteralTail(t[1..], digits)
    else false
  }

  predicate Marked(t: string) { '.' in t || 'e' in t || 'E' in t }

  /** A decimal literal with a fractional part or exponent. */
  predicate FloatLiteral(t: string) {
    t != "" && Marked(t) && LiteralTail(if t[0] == '-' then t[1..] else t, false)
  }

  /** What dump_value prints for a float. */
  function FloatText(libc: Libc, d: real): string {
    var t := libc.fmt(d);
    if Marked(t) || 'n' in t then t else t + ".0"
  }

  /** The text of d is a literal that fits the parser's buffer: every double but inf and nan. */
  predicate Printable(libc: Libc, d: real) {
    var t := FloatText(libc, d);
    FloatLiteral(t) && |t| <= 63 && libc.strtod(t).Some?
  }

  /** The 15-digit text of d reads back as d. */
  predicate Exact(libc: Libc, d: real) { libc.strtod(FloatText(libc, d)) == Some(d) }

  ghost predicate Writable(libc: Libc, v: Value)
    decreases v, 0
  {
    match v
    case Str(s) => NulFree(s)
    case Int(i) => InRange(i)
    case Float(d) => Printable(libc, d)
    case Bool(_) => true
    case Arr(items) => forall k :: 0 <= k < |items| ==> items[k].Str? && NulFree(items[k].s)
    case Table(ms) => WritableTable(libc, ms)
  }

  ghost predicate WritableTable(libc: Libc, ms: Members)
    decreases ms, 1
  {
    Unique(ms) && WritableMembers(libc, ms)
  }

  ghost predicate WritableMembers(libc: Libc, ms: Members)
    decreases ms, 0
  {
    ms == [] || (NulFree(ms[0].key) && Writable(libc, ms[0].val) && WritableMembers(libc, ms[1..]))
  }
}
