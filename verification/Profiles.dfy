/**
 Profiles and device configurations (tools/src/profiles.c): numeric settings with their "explicitly
 set" flags, and the button map, an ordered list of keycode pairs.
 */
module Profiles {
  import opened Wrappers

  datatype Entry = Entry(from: int, to: int)

  /** The value of a `struct profile`. */
  datatype ProfileData = ProfileData(
    name: string,
    scrollSpeed: real,
    sensitivity: real,
    lpfAlpha: real,
    hasScroll: bool,
    hasSens: bool,
    hasLpf: bool,
    map_: seq<Entry>)

  const DEFAULT_SCROLL: real := 1.0
  const DEFAULT_SENSITIVITY: real := 30.0
  const UNSET_LPF: real := -1.0

  function Fresh(name: string): ProfileData {
    ProfileData(name, DEFAULT_SCROLL, DEFAULT_SENSITIVITY, UNSET_LPF, false, false, false, [])
  }

  // ------------------------------------------------------------------
  // Button maps
  // ------------------------------------------------------------------

  /** The code `from` is mapped to: the first entry for it, or itself when there is none. */
  function Lookup(m: seq<Entry>, from: int): int {
    if m == [] then from
    else if m[0].from == from then m[0].to
    else Lookup(m[1..], from)
  }

  /** A code is mapped by its first entry, and to itself when it has none. */
  lemma {:induction false} LookupIs(m: seq<Entry>, from: int, i: nat)
    requires i <= |m| && (forall j :: 0 <= j < i ==> m[j].from != from) && (i < |m| ==> m[i].from == from)
    ensures Lookup(m, from) == if i < |m| then m[i].to else from
    decreases i
  {
    if i > 0 {
      LookupIs(m[1..], from, i - 1);
    }
  }

  predicate Mentions(m: seq<Entry>, from: int) {
    exists i :: 0 <= i < |m| && m[i].from == from
  }

  ghost predicate UniqueFrom(m: seq<Entry>) {
    forall i, j :: 0 <= i < j < |m| ==> m[i].from != m[j].from
  }

  /** Replace the first entry for `from`, or append one. */
  function WithButton(m: seq<Entry>, from: int, to: int): (r: seq<Entry>) {
    if m == [] then [Entry(from, to)]
    else if m[0].from == from then [Entry(from, to)] + m[1..]
    else [m[0]] + WithButton(m[1..], from, to)
  }

  lemma {:induction false} WithButtonLookup(m: seq<Entry>, from: int, to: int, k: int)
    ensures Lookup(WithButton(m, from, to), k) == if k == from then to else Lookup(m, k)
  {
    if m != [] {
      var r := WithButton(m, from, to);
      if m[0].from == from {
        assert r[1..] == m[1..];
      } else {
        assert r[1..] == WithButton(m[1..], from, to);
        WithButtonLookup(m[1..], from, to, k);
      }
    }
  }

  /** Which codes are mentioned, in which order: only a new code adds an entry, at the end. */
  lemma {:induction false} WithButtonKeys(m: seq<Entry>, from: int, to: int)
    ensures var r := WithButton(m, from, to);
            && |r| == (if Mentions(m, from) then |m| else |m| + 1)
            && (forall i :: 0 <= i < |m| ==> r[i].from == m[i].from)
            && (!Mentions(m, from) ==> r == m + [Entry(from, to)])
  {
    if m != [] {
      if m[0].from == from {
        assert Mentions(m, from);
      } else {
        WithButtonKeys(m[1..], from, to);
        MentionsTail(m, from);
        if !Mentions(m, from) {
          assert m == [m[0]] + m[1..];
        }
      }
    }
  }

  lemma MentionsTail(m: seq<Entry>, from: int)
    requires m != []
    ensures Mentions(m, from) <==> m[0].from == from || Mentions(m[1..], from)
  {
    if Mentions(m, from) {
      var i :| 0 <= i < |m| && m[i].from == from;
      assert i == 0 || m[1..][i - 1].from == from;
    }
    if Mentions(m[1..], from) {
      var i :| 0 <= i < |m[1..]| && m[1..][i].from == from;
      assert m[i + 1].from == from;
    }
  }

  lemma WithButtonUnique(m: seq<Entry>, from: int, to: int)
    requires UniqueFrom(m)
    ensures UniqueFrom(WithButton(m, from, to))
  {
    WithButtonKeys(m, from, to);
  }

  /** The entries of `src` set one after the other. */
  function MergedMap(dst: seq<Entry>, src: seq<Entry>): seq<Entry>
    decreases |src|
  {
    if src == [] then dst
    else WithButton(MergedMap(dst, src[..|src| - 1]), src[|src| - 1].from, src[|src| - 1].to)
  }

  /** Merging overrides exactly the codes `src` mentions. */
  lemma {:induction false} MergedLookup(dst: seq<Entry>, src: seq<Entry>, k: int)
    requires UniqueFrom(src)
    ensures Lookup(MergedMap(dst, src), k) == if Mentions(src, k) then Lookup(src, k) else Lookup(dst, k)
    decreases |src|
  {
    if src != [] {
      var init, last := src[..|src| - 1], src[|src| - 1];
      MergedLookup(dst, init, k);
      WithButtonLookup(MergedMap(dst, init), last.from, last.to, k);
      LookupAppend(init, last, k);
      assert src == init + [last];
    }
  }

  lemma {:induction false} LookupAppend(m: seq<Entry>, e: Entry, k: int)
    ensures Lookup(m + [e], k) == if Mentions(m, k) then Lookup(m, k) else if e.from == k then e.to else k
    ensures Mentions(m + [e], k) <==> Mentions(m, k) || e.from == k
  {
    if m == [] {
      assert (m + [e])[0] == e && (m + [e])[1..] == [];
    } else {
      assert (m + [e])[1..] == m[1..] + [e];
      LookupAppend(m[1..], e, k);
      MentionsTail(m, k);
      MentionsTail(m + [e], k);
    }
  }

  /** Setting the entries of a map one by one from nothing rebuilds the map. */
  lemma {:induction false} MergedFromNothing(src: seq<Entry>)
    requires UniqueFrom(src)
    ensures MergedMap([], src) == src
  {
    if src != [] {
      var init, last := src[..|src| - 1], src[|src| - 1];
      MergedFromNothing(init);
      WithButtonKeys(init, last.from, last.to);
      assert src == init + [last];
    }
  }

  // ------------------------------------------------------------------
  // Merging and validation
  // ------------------------------------------------------------------

  /** profile_merge: the flags of dst stay as they are. */
  function Merged(dst: ProfileData, src: ProfileData): ProfileData {
    dst.(scrollSpeed := if src.hasScroll then src.scrollSpeed else dst.scrollSpeed,
         sensitivity := if src.hasSens then src.sensitivity else dst.sensitivity,
         lpfAlpha := if src.hasLpf then src.lpfAlpha else dst.lpfAlpha,
         map_ := MergedMap(dst.map_, src.map_))
  }

  /** Because merging leaves the flags alone, a resolved profile never counts its lpf_alpha as set. */
  lemma ResolvedNeverHasLpf(src: ProfileData)
    ensures !Merged(Fresh("resolved"), src).hasLpf
  {
  }

  /** The key names the configuration files use (tools/src/keymap.c), as a table of distinct codes
      and distinct names. */
  datatype Keymap = Keymap(table: seq<(int, string)>) {
    ghost predicate Valid() {
      && (forall i :: 0 <= i < |table| ==> table[i].0 >= 0 && '\0' !in table[i].1)
      && (forall i, j :: 0 <= i < j < |table| ==> table[i].0 != table[j].0 && table[i].1 != table[j].1)
    }

    function NameOfFrom(code: int, i: nat): Option<string>
      requires i <= |table|
      decreases |table| - i
    {
      if i == |table| then None
      else if table[i].0 == code then Some(table[i].1)
      else NameOfFrom(code, i + 1)
    }

    function NameOf(code: int): Option<string> { NameOfFrom(code, 0) }

    function CodeOfFrom(name: string, i: nat): int
      requires i <= |table|
      decreases |table| - i
    {
      if i == |table| then -1
      else if table[i].1 == name then table[i].0
      else CodeOfFrom(name, i + 1)
    }

    function CodeOf(name: string): int { CodeOfFrom(name, 0) }

    lemma {:induction false} NameOfIndex(code: int, i: nat)
      requires i <= |table| && NameOfFrom(code, i).Some?
      ensures exists j :: i <= j < |table| && table[j] == (code, NameOfFrom(code, i).value)
      decreases |table| - i
    {
      if table[i].0 != code {
        NameOfIndex(code, i + 1);
      } else {
        assert table[i] == (code, table[i].1);
      }
    }

    lemma {:induction false} CodeOfIndex(name: string, i: nat, j: nat)
      requires Valid() && i <= j < |table| && table[j].1 == name
      ensures CodeOfFrom(name, i) == table[j].0
      decreases j - i
    {
      if i < j {
        CodeOfIndex(name, i + 1, j);
      }
    }

    ghost predicate Knows(name: string) { exists i :: 0 <= i < |table| && table[i].1 == name }

    lemma {:induction false} CodeOfUnknown(name: string, i: nat)
      requires i <= |table| && forall j :: i <= j < |table| ==> table[j].1 != name
      ensures CodeOfFrom(name, i) == -1
      decreases |table| - i
    {
      if i < |table| {
        CodeOfUnknown(name, i + 1);
      }
    }

    /** The table gives the code of each of its names, and -1 for any other. */
    lemma CodeOfKnown(name: string)
      requires Valid()
      ensures CodeOf(name) >= 0 <==> Knows(name)
      ensures Knows(name) ==> (CodeOf(name), name) in table
      ensures !Knows(name) ==> CodeOf(name) == -1
    {
      if i :| 0 <= i < |table| && table[i].1 == name {
        CodeOfIndex(name, 0, i);
        assert table[i] == (CodeOf(name), name);
      } else {
        CodeOfUnknown(name, 0);
      }
    }

    /** A name printed for a code reads back as that code. */
    lemma CodeOfName(code: int)
      requires Valid() && NameOf(code).Some?
      ensures CodeOf(NameOf(code).value) == code && code >= 0
      ensures '\0' !in NameOf(code).value
    {
      NameOfIndex(code, 0);
      var j :| 0 <= j < |table| && table[j] == (code, NameOf(code).value);
      CodeOfIndex(NameOf(code).value, 0, j);
    }

    /** Different codes print as different names. */
    lemma NamesDiffer(a: int, b: int)
      requires Valid() && a != b && NameOf(a).Some? && NameOf(b).Some?
      ensures NameOf(a).value != NameOf(b).value
    {
      CodeOfName(a);
      CodeOfName(b);
    }
  }

  predicate KnownKeys(km: Keymap, m: seq<Entry>) {
    forall i :: 0 <= i < |m| ==> km.NameOf(m[i].from).Some? && km.NameOf(m[i].to).Some?
  }

  /** profile_validate. */
  predicate ValidProfile(km: Keymap, p: ProfileData) {
    && p.name != ""
    && 0.0 < p.scrollSpeed <= 100.0
    && 0.0 < p.sensitivity <= 10000.0
    && (p.hasLpf ==> 0.0 <= p.lpfAlpha <= 1.0)
    && KnownKeys(km, p.map_)
  }

  /** A `struct profile`, updated in place. */
  class Profile {
    var name: string
    var scrollSpeed: real
    var sensitivity: real
    var lpfAlpha: real
    var hasScroll: bool
    var hasSens: bool
    var hasLpf: bool
    var buttons: seq<Entry>

    constructor (n: string)
      ensures Data() == Fresh(n)
    {
      name := n;
      scrollSpeed, sensitivity, lpfAlpha := DEFAULT_SCROLL, DEFAULT_SENSITIVITY, UNSET_LPF;
      hasScroll, hasSens, hasLpf := false, false, false;
      buttons := [];
    }

    constructor Of(d: ProfileData)
      ensures Data() == d
    {
      name, buttons := d.name, d.map_;
      scrollSpeed, sensitivity, lpfAlpha := d.scrollSpeed, d.sensitivity, d.lpfAlpha;
      hasScroll, hasSens, hasLpf := d.hasScroll, d.hasSens, d.hasLpf;
    }

    function Data(): ProfileData
      reads this
    {
      ProfileData(name, scrollSpeed, sensitivity, lpfAlpha, hasScroll, hasSens, hasLpf, buttons)
    }

    method SetButton(from: int, to: int)
      modifies this
      ensures Data() == old(Data()).(map_ := WithButton(old(buttons), from, to))
    {
      var i := 0;
      while i < |buttons|
        invariant 0 <= i <= |buttons| && Data() == old(Data())
        invariant WithButton(buttons, from, to) == buttons[..i] + WithButton(buttons[i..], from, to)
      {
        if buttons[i].from == from {
          assert WithButton(buttons[i..], from, to) == [Entry(from, to)] + buttons[i + 1..];
          buttons := buttons[i := Entry(from, to)];
          return;
        }
        assert buttons[i..][1..] == buttons[i + 1..];
        i := i + 1;
      }
      buttons := buttons + [Entry(from, to)];
    }

    method ClearButtons()
      modifies this
      ensures Data() == old(Data()).(map_ := [])
    {
      buttons := [];
    }

    method Merge(src: ProfileData)
      modifies this
      ensures Data() == Merged(old(Data()), src)
    {
      if src.hasScroll {
        scrollSpeed := src.scrollSpeed;
      }
      if src.hasSens {
        sensitivity := src.sensitivity;
      }
      if src.hasLpf {
        lpfAlpha := src.lpfAlpha;
      }
      ghost var start := Data();
      for i := 0 to |src.map_|
        invariant Data() == start.(map_ := MergedMap(old(buttons), src.map_[..i]))
      {
        assert src.map_[..i + 1][..i] == src.map_[..i];
        SetButton(src.map_[i].from, src.map_[i].to);
      }
      assert src.map_[..|src.map_|] == src.map_;
    }

    method Validate(km: Keymap) returns (ok: bool)
      ensures ok <==> ValidProfile(km, Data())
    {
      if name == "" || scrollSpeed <= 0.0 || scrollSpeed > 100.0 || sensitivity <= 0.0 || sensitivity > 10000.0
         || (hasLpf && (lpfAlpha < 0.0 || lpfAlpha > 1.0)) {
        return false;
      }
      for i := 0 to |buttons|
        invariant KnownKeys(km, buttons[..i])
      {
        if km.NameOf(buttons[i].from).None? || km.NameOf(buttons[i].to).None? {
          assert !KnownKeys(km, buttons);
          return false;
        }
      }
      assert buttons[..|buttons|] == buttons;
      return true;
    }
  }
}
