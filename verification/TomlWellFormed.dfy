/**
 Whatever the text, the tree that toml_parse returns has unique keys, NUL-free strings, arrays of
 strings only and integers in range: it can be written again.
 */
module TomlWellFormed {
  import opened Wrappers
  import opened Strings
  import opened TomlTree
  import opened TomlWriter
  import opened TomlReader
  import opened TomlRoundTrip

  /** printf and strtod agree that every number has a decimal literal of at most 63 characters. */
  ghost predicate AllPrintable(libc: Libc) { forall d: real :: Printable(libc, d) }

  // ------------------------------------------------------------------
  // Tables keep their shape
  // ------------------------------------------------------------------

  lemma {:induction false} AppendWritable(libc: Libc, ms: Members, m: Member)
    requires WritableMembers(libc, ms) && NulFree(m.key) && Writable(libc, m.val)
    ensures WritableMembers(libc, ms + [m])
    decreases |ms|
  {
    if ms == [] {
      assert ms + [m] == [m] && [m][1..] == [];
    } else {
      assert (ms + [m])[1..] == ms[1..] + [m] && (ms + [m])[0] == ms[0];
      AppendWritable(libc, ms[1..], m);
    }
  }

  lemma UniqueAppend(ms: Members, m: Member)
    requires Unique(ms) && Get(ms, m.key).None?
    ensures Unique(ms + [m])
  {
    GetIndex(ms, m.key);
  }

  lemma {:induction false} SetValKeys(ms: Members, key: string, v: Value)
    ensures |SetVal(ms, key, v)| == |ms|
    ensures forall i :: 0 <= i < |ms| ==> SetVal(ms, key, v)[i].key == ms[i].key
    decreases |ms|
  {
    if ms != [] && ms[0].key != key {
      SetValKeys(ms[1..], key, v);
    }
  }

  lemma {:induction false} SetValWritable(libc: Libc, ms: Members, key: string, v: Value)
    requires WritableMembers(libc, ms) && Writable(libc, v)
    ensures WritableMembers(libc, SetVal(ms, key, v))
    decreases |ms|
  {
    if ms != [] {
      var r := SetVal(ms, key, v);
      if ms[0].key == key {
        assert r[0] == Member(key, v) && r[1..] == ms[1..];
      } else {
        SetValWritable(libc, ms[1..], key, v);
        assert r[0] == ms[0] && r[1..] == SetVal(ms[1..], key, v);
      }
    }
  }

  lemma SetValTable(libc: Libc, ms: Members, key: string, v: Value)
    requires WritableTable(libc, ms) && Writable(libc, v)
    ensures WritableTable(libc, SetVal(ms, key, v))
  {
    SetValKeys(ms, key, v);
    SetValWritable(libc, ms, key, v);
  }

  lemma AppendTable(libc: Libc, ms: Members, m: Member)
    requires WritableTable(libc, ms) && NulFree(m.key) && Writable(libc, m.val) && Get(ms, m.key).None?
    ensures WritableTable(libc, ms + [m])
  {
    UniqueAppend(ms, m);
    AppendWritable(libc, ms, m);
  }

  lemma {:induction false} AtWritable(libc: Libc, ms: Members, path: Path)
    requires WritableTable(libc, ms) && At(ms, path).Some?
    ensures WritableTable(libc, At(ms, path).value)
    decreases |path|
  {
    if path != [] {
      GetWritable(libc, ms, path[0]);
      AtWritable(libc, Get(ms, path[0]).value.members, path[1..]);
    }
  }

  lemma {:induction false} PutWritable(libc: Libc, ms: Members, path: Path, x: Members)
    requires WritableTable(libc, ms) && At(ms, path).Some? && WritableTable(libc, x)
    ensures WritableTable(libc, Put(ms, path, x))
    decreases |path|
  {
    if path != [] {
      var sub := Get(ms, path[0]).value.members;
      GetWritable(libc, ms, path[0]);
      PutWritable(libc, sub, path[1..], x);
      assert Writable(libc, Table(Put(sub, path[1..], x)));
      SetValTable(libc, ms, path[0], Table(Put(sub, path[1..], x)));
    }
  }

  lemma {:induction false} EnterWritable(libc: Libc, ms: Members, path: Path)
    requires WritableTable(libc, ms) && NulFreePath(path) && Enter(ms, path).Some?
    ensures WritableTable(libc, Enter(ms, path).value)
    decreases |path|
  {
    if path != [] {
      assert NulFreePath(path[1..]);
      match Get(ms, path[0])
      case None =>
        EnterWritable(libc, [], path[1..]);
        assert Writable(libc, Table(Enter([], path[1..]).value));
        AppendTable(libc, ms, Member(path[0], Table(Enter([], path[1..]).value)));
      case Some(v) =>
        GetWritable(libc, ms, path[0]);
        EnterWritable(libc, v.members, path[1..]);
        assert Writable(libc, Table(Enter(v.members, path[1..]).value));
        SetValTable(libc, ms, path[0], Table(Enter(v.members, path[1..]).value));
    }
  }

  lemma AddWritable(libc: Libc, ms: Members, path: Path, key: string, v: Value)
    requires WritableTable(libc, ms) && NulFree(key) && Writable(libc, v) && AddAt(ms, path, key, v).Some?
    ensures WritableTable(libc, AddAt(ms, path, key, v).value)
  {
    AtWritable(libc, ms, path);
    AppendTable(libc, At(ms, path).value, Member(key, v));
    PutWritable(libc, ms, path, At(ms, path).value + [Member(key, v)]);
  }

  // ------------------------------------------------------------------
  // What the parser reads
  // ------------------------------------------------------------------

  lemma {:induction false} CStringNulFree(buf: string)
    ensures NulFree(CString(buf))
  {
    if buf != "" && buf[0] != '\0' {
      CStringNulFree(buf[1..]);
    }
  }

  lemma {:induction false} StringNulFree(at: Pos, quote: char, buf: string, start: nat)
    requires StringBody(at, quote, buf, start).Ok?
    ensures NulFree(StringBody(at, quote, buf, start).value)
    decreases |at.rest|
  {
    hide StringItem;
    if at.rest[0] == quote {
      CStringNulFree(buf);
    } else {
      var item := StringItem(at, quote);
      StringNulFree(item.at, quote, buf + item.value, start);
    }
  }

  lemma QuotedNulFree(at: Pos)
    requires at.rest != "" && QuotedString(at).Ok?
    ensures NulFree(QuotedString(at).value)
  {
    StringNulFree(Pos(at.rest[1..], at.line), at.rest[0], "", at.line);
  }

  lemma {:induction false} BarePrefix(s: string)
    ensures AllBare(s[..BareLength(s)])
  {
    if s != "" && IsBare(s[0]) {
      BarePrefix(s[1..]);
      var n := BareLength(s[1..]);
      forall i | 0 <= i < n + 1 ensures IsBare(s[i]) {
        if i > 0 {
          assert s[i] == s[1..][..n][i - 1];
        }
      }
    }
  }

  lemma SegmentNulFree(at: Pos)
    requires KeySegment(at).Ok?
    ensures NulFree(KeySegment(at).value)
  {
    if IsQuote(at.rest[0]) {
      QuotedNulFree(at);
    } else {
      BarePrefix(at.rest);
      assert !IsBare('\0');
    }
  }

  lemma {:induction false} PathNulFree(at: Pos)
    requires KeyPath(at).Ok?
    ensures NulFreePath(KeyPath(at).value)
    decreases |at.rest|
  {
    hide KeySegment;
    SegmentNulFree(at);
    var next := KeySegment(at).at;
    if Peek(next.rest, '.') {
      PathNulFree(Pos(next.rest[1..], next.line));
    }
  }

  lemma {:induction false} ItemsAreStrings(at: Pos)
    requires ArrayItems(at).Ok?
    ensures StringsOnly(ArrayItems(at).value)
    decreases |at.rest|
  {
    hide SkipWs, QuotedString;
    var here := SkipWs(at);
    if !Peek(here.rest, ']') {
      QuotedNulFree(here);
      var after := SkipWs(ArrayItem(here).at);
      if Peek(after.rest, ',') {
        ItemsAreStrings(Pos(after.rest[1..], after.line));
      }
    }
  }

  lemma ValueWritable(libc: Libc, at: Pos)
    requires AllPrintable(libc) && ReadValue(libc, at).Ok?
    ensures Writable(libc, ReadValue(libc, at).value) && !ReadValue(libc, at).value.Table?
  {
    hide QuotedString, ArrayItems, Scan, Printable;
    if IsQuote(at.rest[0]) {
      QuotedNulFree(at);
    } else if at.rest[0] == '[' {
      ItemsAreStrings(Pos(at.rest[1..], at.line));
    }
  }

  lemma {:induction false} DocumentWritable(libc: Libc, at: Pos, scope: Scope)
    requires AllPrintable(libc) && WritableTable(libc, scope.root) && NulFreePath(scope.cur)
    requires Document(libc, at, scope).Ok?
    ensures WritableTable(libc, Document(libc, at, scope).value)
    decreases |at.rest|
  {
    hide SkipWs, KeyLine, HeaderLine, WritableTable, AllPrintable;
    var here := SkipWs(at);
    if here.rest != "" {
      if here.rest[0] == '[' {
        HeaderWritable(libc, Pos(here.rest[1..], here.line), scope);
      } else {
        KeyLineWritable(libc, here, scope);
      }
      var o := Statement(libc, here, scope);
      DocumentWritable(libc, o.at, o.value);
    }
  }

  lemma HeaderWritable(libc: Libc, at: Pos, scope: Scope)
    requires WritableTable(libc, scope.root) && HeaderLine(at, scope).Ok?
    ensures WritableTable(libc, HeaderLine(at, scope).value.root) && NulFreePath(HeaderLine(at, scope).value.cur)
  {
    hide KeyPath, Enter, WritableTable;
    PathNulFree(at);
    EnterWritable(libc, scope.root, KeyPath(at).value);
  }

  lemma KeyLineWritable(libc: Libc, at: Pos, scope: Scope)
    requires AllPrintable(libc) && WritableTable(libc, scope.root) && NulFreePath(scope.cur)
    requires KeyLine(libc, at, scope).Ok?
    ensures WritableTable(libc, KeyLine(libc, at, scope).value.root)
    ensures KeyLine(libc, at, scope).value.cur == scope.cur
  {
    hide KeyPath, Enter, SkipWs, ReadValue, AddAt, WritableTable, AllPrintable;
    var path := KeyPath(at).value;
    PathNulFree(at);
    var n := |path| - 1;
    var parent := scope.cur + path[..n];
    EnterWritable(libc, scope.root, parent);
    var root := Enter(scope.root, parent).value;
    var start := SkipWs(Pos(SkipWs(KeyPath(at).at).rest[1..], SkipWs(KeyPath(at).at).line));
    ValueWritable(libc, start);
    AddWritable(libc, root, parent, path[n], ReadValue(libc, start).value);
  }

  /** Every tree toml_parse returns can be written. */
  lemma ParseWritable(libc: Libc, text: string)
    requires AllPrintable(libc) && Parse(libc, text).Ok?
    ensures WritableTable(libc, Parse(libc, text).value)
  {
    DocumentWritable(libc, Pos(text, 1), Scope([], []));
  }

  // ------------------------------------------------------------------
  // Trees that a round trip gives back unchanged
  // ------------------------------------------------------------------

  /** Tables nest at most d deep. */
  predicate Shallow(ms: Members, d: nat)
    decreases ms
  {
    ms == [] ||
    ((match ms[0].val case Table(sub) => d > 0 && Shallow(sub, d - 1) case _ => true) && Shallow(ms[1..], d))
  }

  lemma {:induction false} ShallowDeepest(ms: Members, d: nat, n: nat)
    requires Shallow(ms, d)
    ensures Deepest(ms, n) <= n + d
    decreases ms
  {
    if ms != [] {
      ShallowDeepest(ms[1..], d, n);
      match ms[0].val
      case Table(sub) => ShallowDeepest(sub, d - 1, n + 1);
      case _ =>
    }
  }

  lemma {:induction false} ShallowAppend(ms: Members, m: Member, d: nat)
    requires Shallow(ms, d) && (m.val.Table? ==> d > 0 && Shallow(m.val.members, d - 1))
    ensures Shallow(ms + [m], d)
    decreases |ms|
  {
    if ms == [] {
      assert (ms + [m])[0] == m && (ms + [m])[1..] == [];
    } else {
      assert (ms + [m])[0] == ms[0] && (ms + [m])[1..] == ms[1..] + [m];
      ShallowAppend(ms[1..], m, d);
    }
  }

  /** Appending a member appends what it is read back as, scalars and tables apart. */
  lemma {:induction false} RereadAppend(libc: Libc, ms: Members, m: Member)
    ensures RereadScalars(libc, ms + [m]) ==
            RereadScalars(libc, ms) + if m.val.Table? then [] else [Member(m.key, Reread(libc, m.val))]
    ensures RereadTables(libc, ms + [m]) ==
            RereadTables(libc, ms) +
            if m.val.Table? then [Member(m.key, Table(RereadTree(libc, m.val.members)))] else []
    decreases |ms|
  {
    hide Reread, RereadTree;
    if ms == [] {
      assert ms + [m] == [m] && [m][1..] == [];
    } else {
      assert (ms + [m])[0] == ms[0] && (ms + [m])[1..] == ms[1..] + [m];
      RereadAppend(libc, ms[1..], m);
    }
  }

  lemma {:induction false} NoTables(libc: Libc, ms: Members)
    requires TablesOf(ms) == []
    ensures RereadTables(libc, ms) == []
    decreases |ms|
  {
    if ms != [] {
      NoTables(libc, ms[1..]);
    }
  }

  /** Writable, already in normal form, and at most d tables deep. */
  ghost predicate Tidy(libc: Libc, ms: Members, d: nat) {
    WritableTable(libc, ms) && Normal(ms) == ms && Shallow(ms, d)
  }

  /** Appending a scalar before there are tables. */
  lemma TidyScalar(libc: Libc, ms: Members, m: Member, d: nat)
    requires Tidy(libc, ms, d) && TablesOf(ms) == []
    requires NulFree(m.key) && Get(ms, m.key).None?
    requires Writable(libc, m.val) && !m.val.Table?
    ensures Tidy(libc, ms + [m], d) && TablesOf(ms + [m]) == []
    ensures RereadTree(libc, ms + [m]) == RereadTree(libc, ms) + [Member(m.key, Reread(libc, m.val))]
  {
    hide WritableTable, Shallow, Reread, RereadScalars, RereadTables;
    AppendTable(libc, ms, m);
    ShallowAppend(ms, m, d);
    RereadAppend(libc, ms, m);
    NoTables(libc, ms);
    SplitAppend(ms, [m]);
    assert ScalarsOf([m]) == [m] && TablesOf([m]) == [] by {
      assert [m][1..] == [];
    }
    assert [] + [] == TablesOf(ms + [m]);
    NoTables(libc, ms + [m]);
    assert RereadTree(libc, ms) == RereadScalars(libc, ms);
  }

  /** Appending a table. */
  lemma TidyTable(libc: Libc, ms: Members, key: string, sub: Members, d: nat)
    requires d > 0 && Tidy(libc, ms, d) && Tidy(libc, sub, d - 1)
    requires NulFree(key) && Get(ms, key).None?
    ensures Tidy(libc, ms + [Member(key, Table(sub))], d)
    ensures RereadTree(libc, ms + [Member(key, Table(sub))]) ==
            RereadTree(libc, ms) + [Member(key, Table(RereadTree(libc, sub)))]
  {
    hide WritableTable, Shallow, RereadScalars, RereadTables;
    var m := Member(key, Table(sub));
    assert Writable(libc, m.val);
    AppendTable(libc, ms, m);
    ShallowAppend(ms, m, d);
    RereadAppend(libc, ms, m);
    SplitAppend(ms, [m]);
    assert ScalarsOf([m]) == [] && TablesOf([m]) == [m] by {
      assert [m][1..] == [];
    }
    assert ScalarsOf(ms) + [] == ScalarsOf(ms) && RereadScalars(libc, ms) + [] == RereadScalars(libc, ms);
    assert ScalarsOf(ms) + (TablesOf(ms) + [m]) == Normal(ms) + [m];
    Assoc(RereadScalars(libc, ms), RereadTables(libc, ms), [Member(key, Table(RereadTree(libc, sub)))]);
  }

  lemma TidyNothing(libc: Libc, d: nat)
    ensures Tidy(libc, [], d) && TablesOf([]) == [] && RereadTree(libc, []) == []
  {
  }

  /** A tidy tree is written, and comes back as its text stands for: unchanged exactly when every float
      has an exact text. */
  lemma TidyRoundTrip(libc: Libc, ms: Members, d: nat)
    requires Tidy(libc, ms, d) && d <= MAX_DEPTH - 1
    ensures Dumps(libc, Table(ms)).Some?
    ensures var o := Parse(libc, Dumps(libc, Table(ms)).value);
            o.Ok? && o.value == RereadTree(libc, ms) && (o.value == ms <==> ExactTree(libc, ms))
  {
    hide WritableTable, ExactTree, Shallow, Normal, Parse, Dumps, RereadTree;
    ShallowDeepest(ms, d, 0);
    DumpsRefusesOnlyDepth(libc, ms);
    DumpsRead(libc, ms);
    RoundTrip(libc, ms);
  }
}
