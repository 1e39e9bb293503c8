/**
  Directories: 32-byte slots, 8.3 names, long-name groups, lookup and the first free slot.
  The first half is about sequences of slots; the second half finds the slots on the disk.
*/
module FatDirs {
  import opened Common
  import opened FatDisk
  import opened FatChains
  import opened FatRead
  import opened FatWrite

  type Slot = s: seq<Byte> | |s| == 32 witness seq(32, i => 0)

  const ATTR_LONG_NAME: Byte := 0x0F
  const DELETED: Byte := 0xE5
  const SPACE: Byte := 32
  const DOT: Byte := 46
  const SLASH: Byte := 47

  predicate IsEnd(e: Slot) {
    e[0] == 0
  }

  predicate IsFree(e: Slot) {
    e[0] == 0 || e[0] == DELETED
  }

  predicate IsLong(e: Slot) {
    !IsFree(e) && e[11] == ATTR_LONG_NAME
  }

  predicate IsLabel(e: Slot) {
    !IsFree(e) && e[11] != ATTR_LONG_NAME && e[11] / 8 % 2 == 1
  }

  /** A short entry: the kind that names a file or a directory. */
  predicate IsShort(e: Slot) {
    !IsFree(e) && e[11] / 8 % 2 == 0
  }

  predicate IsDirectory(e: Slot) {
    e[11] / 16 % 2 == 1
  }

  function ShortName(e: Slot): (n: seq<Byte>) {
    e[..11]
  }

  // ------------------------------------------------------------------------- 8.3 names

  function Upper(b: Byte): Byte {
    if 97 <= b <= 122 then b - 32 else b
  }

  function Uppers(s: seq<Byte>): (r: seq<Byte>)
    ensures |r| == |s| && forall i :: 0 <= i < |s| ==> r[i] == Upper(s[i])
  {
    seq(|s|, i requires 0 <= i < |s| => Upper(s[i]))
  }

  /** Position of the first dot, or the length. */
  function DotAt(name: seq<Byte>): (k: nat)
    ensures k <= |name| && DOT !in name[..k] && (k < |name| ==> name[k] == DOT)
  {
    if name == [] || name[0] == DOT then 0
    else
      var k := DotAt(name[1..]);
      assert name[..k + 1] == [name[0]] + name[1..][..k];
      k + 1
  }

  /** The 8.3 form of a name: up to eight characters before the first dot and up to three
      behind it, in upper case and padded with spaces. */
  function Name83(name: seq<Byte>): (r: seq<Byte>)
    ensures |r| == 11
  {
    seq(11, m requires 0 <= m < 11 => Byte83(name, DotAt(name), m))
  }

  /** Byte m of the 8.3 form, for a name whose first dot is at k. */
  function Byte83(name: seq<Byte>, k: nat, m: nat): (b: Byte)
    requires k <= |name|
  {
    if m < 8 && m < k then Upper(name[m])
    else if 8 <= m && k + m - 7 < |name| then Upper(name[k + m - 7])
    else SPACE
  }

  /** fat_name_to_83. */
  method NameTo83(name: seq<Byte>) returns (out: seq<Byte>)
    ensures out == Name83(name)
  {
    hide DotAt, Upper;
    ghost var k := DotAt(name);
    var i;
    out, i := BaseTo83(name);
    while i < |name| && name[i] != DOT
      invariant 0 <= i <= k
    {
      BeforeDot(name, i + 1);
      i := i + 1;
    }
    BeforeDot(name, i);
    if i < |name| {
      out := ExtensionTo83(name, out, i);
    }
    assert |out| == 11 && forall m :: 0 <= m < 11 ==> out[m] == Byte83(name, k, m);
  }

  /** The part before the first dot. */
  method BaseTo83(name: seq<Byte>) returns (out: seq<Byte>, i: nat)
    ensures |out| == 11 && i <= DotAt(name)
    ensures forall m :: 0 <= m < 11 ==> out[m] == if m < 8 && m < DotAt(name) then Upper(name[m]) else SPACE
  {
    hide DotAt, Upper;
    out := seq(11, i => SPACE);
    i := 0;
    while i < |name| && name[i] != DOT && i < 8
      invariant 0 <= i <= Min(DotAt(name), 8) && |out| == 11
      invariant forall m :: 0 <= m < 11 ==> out[m] == if m < i then Upper(name[m]) else SPACE
    {
      BeforeDot(name, i + 1);
      out := out[i := Upper(name[i])];
      i := i + 1;
    }
    BeforeDot(name, i);
  }

  /** The part behind the first dot. */
  method ExtensionTo83(name: seq<Byte>, base: seq<Byte>, dot: nat) returns (out: seq<Byte>)
    requires |base| == 11 && dot == DotAt(name) < |name| && forall m :: 8 <= m < 11 ==> base[m] == SPACE
    ensures |out| == 11 && out[..8] == base[..8]
    ensures forall m :: 8 <= m < 11 ==>
      out[m] == if DotAt(name) + m - 7 < |name| then Upper(name[DotAt(name) + m - 7]) else SPACE
  {
    hide DotAt, Upper;
    out := base;
    var i, extI := dot + 1, 8;
    while i < |name| && extI < 11
      invariant 8 <= extI <= 11 == |out| && i == dot + extI - 7 <= |name| && out[..8] == base[..8]
      invariant forall m :: 8 <= m < 11 ==> out[m] == if m < extI then Upper(name[dot + m - 7]) else SPACE
    {
      out := out[extI := Upper(name[i])];
      extI := extI + 1;
      i := i + 1;
    }
  }

  lemma BeforeDot(name: seq<Byte>, i: nat)
    requires i <= |name|
    ensures i < DotAt(name) ==> name[i] != DOT
    ensures i <= DotAt(name) && (i == |name| || name[i] == DOT) ==> i == DotAt(name)
  {
    var k := DotAt(name);
    if i < k { assert name[i] in name[..k]; }
  }

  /** The first byte of an 8.3 form is never a dot, so "." and ".." entries are never named. */
  lemma Name83NoDot(name: seq<Byte>)
    ensures Name83(name)[0] != DOT
  {
    var k := DotAt(name);
    if k > 0 { assert name[0] in name[..k]; }
  }

  /** The 8.3 form of a C string starts with the upper-cased first character, or with a
      space when the string is empty or starts with a dot. */
  lemma Name83First(name: seq<Byte>)
    ensures Name83(name)[0] == if name == [] || name[0] == DOT then SPACE else Upper(name[0])
  {
    BeforeDot(name, 0);
  }

  // ------------------------------------------------------------------------ long names

  const LFN_MAX_CHARS := 256

  /** A long name under reconstruction. */
  datatype Lfn = Lfn(buffer: seq<Byte>, hasData: bool, checksum: Byte, valid: bool)

  function LfnReset(): (l: Lfn)
    ensures |l.buffer| == LFN_MAX_CHARS && !l.hasData
  {
    Lfn(seq(LFN_MAX_CHARS, i => 0), false, 0, false)
  }

  /** Byte offset of the i-th character of a long-name entry. */
  function CharAt(i: int): (o: int)
    requires 0 <= i < 13
    ensures 1 <= o <= 30
  {
    if i < 5 then 1 + 2 * i else if i < 11 then 14 + 2 * (i - 5) else 28 + 2 * (i - 11)
  }

  /** Characters i..12 of the entry, placed from base on; stops at a terminator or padding. */
  function PutChars(buffer: seq<Byte>, e: Slot, base: nat, i: nat): (r: seq<Byte>)
    requires i <= 13 && base + 13 <= |buffer|
    ensures |r| == |buffer|
    decreases 13 - i
  {
    if i == 13 then buffer
    else
      var lo: int, hi: int := e[CharAt(i)], e[CharAt(i) + 1];
      var c := lo + 256 * hi;
      if c == 0 then buffer[base + i := 0]
      else if c == 0xFFFF then buffer
      else PutChars(buffer[base + i := if c < 128 then c else 63], e, base, i + 1)
  }

  /** lfn_accumulate. */
  function LfnAccumulate(l: Lfn, e: Slot): (r: Lfn)
    requires |l.buffer| == LFN_MAX_CHARS
    ensures |r.buffer| == LFN_MAX_CHARS
  {
    var ordinal := e[0] % 32;
    var base := (ordinal - 1) * 13;
    if ordinal < 1 || base + 13 > LFN_MAX_CHARS - 1 then l
    else
      Lfn(PutChars(l.buffer, e, base, 0), true,
          if l.hasData then l.checksum else e[13],
          if l.hasData then l.valid && e[13] == l.checksum else true)
  }

  /** fat_short_name_checksum. */
  function NameChecksum(name: seq<Byte>): (sum: Byte) {
    if name == [] then 0
    else
      var sum: int := NameChecksum(name[..|name| - 1]);
      (sum % 2 * 0x80 + sum / 2 + name[|name| - 1]) % 256
  }

  /** The C string at the start of a buffer. */
  function CString(b: seq<Byte>): (r: seq<Byte>) {
    if b == [] || b[0] == 0 then [] else [b[0]] + CString(b[1..])
  }

  predicate EqualIgnoringCase(a: seq<Byte>, b: seq<Byte>) {
    Uppers(a) == Uppers(b)
  }

  predicate MatchesLong(l: Lfn, e: Slot, name: seq<Byte>) {
    l.hasData && l.valid && NameChecksum(ShortName(e)) == l.checksum && EqualIgnoringCase(name, CString(l.buffer))
  }

  // ---------------------------------------------------------------------------- lookup

  /** The lookup loop of fat_find_entry_in_dir from slot i on: the slot found, or -1. */
  function Scan(slots: seq<Slot>, name: seq<Byte>, i: nat, l: Lfn): (r: int)
    requires |l.buffer| == LFN_MAX_CHARS
    ensures r == -1 || (i <= r < |slots| && IsShort(slots[r]))
    decreases |slots| - i
  {
    if i >= |slots| || IsEnd(slots[i]) then -1
    else if slots[i][0] == DELETED then Scan(slots, name, i + 1, LfnReset())
    else if slots[i][11] == ATTR_LONG_NAME then Scan(slots, name, i + 1, LfnAccumulate(l, slots[i]))
    else if IsLabel(slots[i]) then Scan(slots, name, i + 1, LfnReset())
    else if ShortName(slots[i]) == Name83(name) || MatchesLong(l, slots[i], name) then i
    else Scan(slots, name, i + 1, LfnReset())
  }

  function Lookup(slots: seq<Slot>, name: seq<Byte>): (r: int)
    ensures r == -1 || (0 <= r < |slots| && IsShort(slots[r]))
  {
    Scan(slots, name, 0, LfnReset())
  }

  /** Nothing stands behind the end marker, and every long-name entry is followed by another
      one or by a short entry. */
  ghost predicate Tidy(slots: seq<Slot>) {
    && (forall i, j :: 0 <= i <= j < |slots| && IsEnd(slots[i]) ==> IsEnd(slots[j]))
    && (forall i :: 0 <= i < |slots| && IsLong(slots[i]) ==>
          i + 1 < |slots| && (IsLong(slots[i + 1]) || IsShort(slots[i + 1])))
  }

  /** No two short entries have the same 8.3 name. */
  ghost predicate UniqueNames(slots: seq<Slot>) {
    forall i, j :: 0 <= i < j < |slots| && IsShort(slots[i]) && IsShort(slots[j]) ==>
      ShortName(slots[i]) != ShortName(slots[j])
  }

  lemma LookupIsScan(slots: seq<Slot>, name: seq<Byte>)
    ensures Lookup(slots, name) == Scan(slots, name, 0, LfnReset())
  {
  }

  lemma ScanPastEnd(slots: seq<Slot>, name: seq<Byte>, i: nat, l: Lfn)
    requires |l.buffer| == LFN_MAX_CHARS && i >= |slots|
    ensures Scan(slots, name, i, l) == -1
  {
  }

  lemma {:induction false} ScanAgree(s1: seq<Slot>, s2: seq<Slot>, name: seq<Byte>, i: nat, l: Lfn)
    requires |l.buffer| == LFN_MAX_CHARS && |s1| == |s2| && forall k :: i <= k < |s1| ==> s1[k] == s2[k]
    ensures Scan(s1, name, i, l) == Scan(s2, name, i, l)
    decreases |s1| - i
  {
    if i < |s1| && !IsEnd(s1[i]) {
      ScanAgree(s1, s2, name, i + 1, LfnReset());
      if IsLong(s1[i]) { ScanAgree(s1, s2, name, i + 1, LfnAccumulate(l, s1[i])); }
    }
  }

  /** A short entry is found by its 8.3 name, or by a long name that stands before it. */
  lemma {:induction false} ScanHow(slots: seq<Slot>, name: seq<Byte>, i: nat, l: Lfn)
    requires |l.buffer| == LFN_MAX_CHARS && (l.hasData ==> 0 < i <= |slots| && IsLong(slots[i - 1]))
    ensures var r := Scan(slots, name, i, l);
            r == -1 || ShortName(slots[r]) == Name83(name) || (r > 0 && IsLong(slots[r - 1]))
    decreases |slots| - i
  {
    hide LfnAccumulate, Name83, ShortName, NameChecksum, CString, EqualIgnoringCase;
    if i < |slots| && !IsEnd(slots[i]) {
      ScanHow(slots, name, i + 1, LfnReset());
      if IsLong(slots[i]) { ScanHow(slots, name, i + 1, LfnAccumulate(l, slots[i])); }
    }
  }

  /** A failed lookup saw every short entry before the end marker. */
  lemma {:induction false} ScanMissing(slots: seq<Slot>, name: seq<Byte>, i: nat, l: Lfn, k: nat)
    requires |l.buffer| == LFN_MAX_CHARS && Scan(slots, name, i, l) == -1
    requires i <= k < |slots| && IsShort(slots[k]) && forall m :: i <= m < k ==> !IsEnd(slots[m])
    ensures ShortName(slots[k]) != Name83(name)
    decreases |slots| - i
  {
    if i < k {
      ScanMissing(slots, name, i + 1, if IsLong(slots[i]) then LfnAccumulate(l, slots[i]) else LfnReset(), k);
    }
  }

  /** The first free slot of a directory, or its length. */
  function FirstFree(slots: seq<Slot>): (p: nat)
    ensures p <= |slots| && (forall k :: 0 <= k < p ==> !IsFree(slots[k])) && (p < |slots| ==> IsFree(slots[p]))
  {
    if slots == [] || IsFree(slots[0]) then 0
    else
      var p := FirstFree(slots[1..]);
      assert forall k :: 1 <= k < p + 1 ==> slots[k] == slots[1..][k - 1];
      p + 1
  }

  /** An entry made now would be found under name before whatever is found under it today. */
  predicate Overtaken(slots: seq<Slot>, name: seq<Byte>) {
    Lookup(slots, name) == -1 || FirstFree(slots) < Lookup(slots, name)
  }

  lemma {:induction false} InsertFrom(slots: seq<Slot>, name: seq<Byte>, i: nat, l: Lfn, p: nat, e: Slot)
    requires |l.buffer| == LFN_MAX_CHARS && i <= p < |slots| && IsFree(slots[p])
    requires forall k :: i <= k < p ==> !IsFree(slots[k])
    requires IsShort(e) && ShortName(e) == Name83(name)
    ensures var r := Scan(slots, name, i, l);
            Scan(slots[p := e], name, i, l) == if r == -1 || p < r then p else r
    decreases p - i
  {
    hide LfnAccumulate, Name83, ShortName, NameChecksum, CString, EqualIgnoringCase;
    if i < p {
      InsertFrom(slots, name, i + 1, if IsLong(slots[i]) then LfnAccumulate(l, slots[i]) else LfnReset(), p, e);
    }
  }

  /** What a lookup of a new entry's own 8.3 name finds afterwards, whatever it found before:
      the new entry, unless an older one (found by a long name) stands before the free slot. */
  lemma CreatedOvertakes(slots: seq<Slot>, name: seq<Byte>, e: Slot)
    requires FirstFree(slots) < |slots| && IsShort(e) && ShortName(e) == Name83(name)
    ensures Lookup(slots[FirstFree(slots) := e], name) ==
            if Overtaken(slots, name) then FirstFree(slots) else Lookup(slots, name)
  {
    InsertFrom(slots, name, 0, LfnReset(), FirstFree(slots), e);
  }

  /** An entry created after a failed lookup is found again at exactly its slot. */
  lemma CreatedIsFound(slots: seq<Slot>, name: seq<Byte>, e: Slot)
    requires Lookup(slots, name) == -1 && FirstFree(slots) < |slots| && IsShort(e) && ShortName(e) == Name83(name)
    ensures Lookup(slots[FirstFree(slots) := e], name) == FirstFree(slots)
  {
    CreatedOvertakes(slots, name, e);
  }

  lemma {:induction false} InsertOtherFrom(slots: seq<Slot>, name: seq<Byte>, i: nat, l: Lfn, p: nat, e: Slot)
    requires |l.buffer| == LFN_MAX_CHARS && Tidy(slots) && i <= p < |slots| && IsFree(slots[p])
    requires forall k :: i <= k < p ==> !IsFree(slots[k])
    requires i == p ==> !l.hasData
    requires IsShort(e) && ShortName(e) != Name83(name)
    ensures Scan(slots[p := e], name, i, l) == Scan(slots, name, i, l)
    decreases p - i
  {
    hide LfnAccumulate, Name83, ShortName, NameChecksum, CString, EqualIgnoringCase;
    var slots2 := slots[p := e];
    if i < p {
      InsertOtherFrom(slots, name, i + 1, if IsLong(slots[i]) then LfnAccumulate(l, slots[i]) else LfnReset(), p, e);
    } else {
      ScanAgree(slots, slots2, name, p + 1, LfnReset());
      assert Scan(slots2, name, p, l) == Scan(slots2, name, p + 1, LfnReset());
      if IsEnd(slots[p]) && p + 1 < |slots| {
        assert IsEnd(slots[p + 1]);
      }
    }
  }

  /** Lookups of names with another 8.3 form do not notice the new entry. */
  lemma CreatedIsLocal(slots: seq<Slot>, name: seq<Byte>, e: Slot)
    requires Tidy(slots) && FirstFree(slots) < |slots| && IsShort(e) && ShortName(e) != Name83(name)
    ensures Lookup(slots[FirstFree(slots) := e], name) == Lookup(slots, name)
  {
    InsertOtherFrom(slots, name, 0, LfnReset(), FirstFree(slots), e);
  }

  /** The directory stays tidy and its 8.3 names stay unique. */
  lemma CreatedKeepsOrder(slots: seq<Slot>, name: seq<Byte>, e: Slot)
    requires Tidy(slots) && UniqueNames(slots) && Lookup(slots, name) == -1 && FirstFree(slots) < |slots|
    requires IsShort(e) && ShortName(e) == Name83(name)
    ensures Tidy(slots[FirstFree(slots) := e]) && UniqueNames(slots[FirstFree(slots) := e])
  {
    var p := FirstFree(slots);
    var slots2 := slots[p := e];
    forall k | 0 <= k < |slots| && IsShort(slots[k]) ensures ShortName(slots[k]) != Name83(name) {
      ScanMissing(slots, name, 0, LfnReset(), k);
    }
  }

  /** A new entry is found again exactly when its name does not start with byte 0xE5: the
      driver stores that byte unchanged, and it is also the mark of a deleted entry. */
  lemma CreatedFoundExactly(slots: seq<Slot>, name: seq<Byte>, e: Slot)
    requires Lookup(slots, name) == -1 && FirstFree(slots) < |slots|
    requires ShortName(e) == Name83(name) && e[11] / 8 % 2 == 0
    requires name != [] && 0 !in name
    ensures Lookup(slots[FirstFree(slots) := e], name) == FirstFree(slots) <==> name[0] != DELETED
  {
    Name83First(name);
    assert e[0] == ShortName(e)[0];
    if name[0] != DELETED {
      CreatedIsFound(slots, name, e);
    }
  }

  // ---------------------------------------------------------------- updating link fields

  /** Two slots that differ at most in the fields behind the time stamps. */
  predicate SameButLinks(e: Slot, e2: Slot) {
    forall k :: 0 <= k < 26 ==> e2[k] == e[k]
  }

  /** Slots that are equal except for the link fields of short entries. */
  ghost predicate Similar(s: seq<Slot>, s2: seq<Slot>) {
    && |s| == |s2|
    && forall i :: 0 <= i < |s| ==> SameButLinks(s[i], s2[i]) && (s2[i] == s[i] || IsShort(s[i]))
  }

  lemma SameName(e: Slot, e2: Slot)
    requires SameButLinks(e, e2)
    ensures IsFree(e2) == IsFree(e) && IsEnd(e2) == IsEnd(e) && IsLong(e2) == IsLong(e) && IsLabel(e2) == IsLabel(e)
    ensures IsShort(e2) == IsShort(e) && IsDirectory(e2) == IsDirectory(e) && ShortName(e2) == ShortName(e)
  {
  }

  /** Lookup does not look at link fields. */
  lemma {:induction false} SimilarScan(s: seq<Slot>, s2: seq<Slot>, name: seq<Byte>, i: nat, l: Lfn)
    requires Similar(s, s2) && |l.buffer| == LFN_MAX_CHARS
    ensures Scan(s2, name, i, l) == Scan(s, name, i, l)
    decreases |s| - i
  {
    if i < |s| {
      SimilarAt(s, s2, l, name, i);
      hide LfnReset, LfnAccumulate, MatchesLong, Name83, ShortName, Similar, IsLabel, IsEnd;
      SimilarScan(s, s2, name, i + 1, LfnReset());
      SimilarScan(s, s2, name, i + 1, LfnAccumulate(l, s[i]));
    }
  }

  /** What a scan looks at in one slot. */
  lemma SimilarAt(s: seq<Slot>, s2: seq<Slot>, l: Lfn, name: seq<Byte>, i: nat)
    requires Similar(s, s2) && i < |s| && |l.buffer| == LFN_MAX_CHARS
    ensures |s2| == |s| && IsEnd(s2[i]) == IsEnd(s[i]) && s2[i][0] == s[i][0] && s2[i][11] == s[i][11]
    ensures IsLabel(s2[i]) == IsLabel(s[i])
    ensures ShortName(s2[i]) == ShortName(s[i])
    ensures s[i][0] != DELETED && s[i][11] == ATTR_LONG_NAME && !IsEnd(s[i]) ==>
      LfnAccumulate(l, s2[i]) == LfnAccumulate(l, s[i])
    ensures s[i][0] != DELETED && s[i][11] != ATTR_LONG_NAME && !IsEnd(s[i]) ==>
      MatchesLong(l, s2[i], name) == MatchesLong(l, s[i], name)
  {
    SameName(s[i], s2[i]);
  }

  lemma SimilarDirectory(s: seq<Slot>, s2: seq<Slot>)
    requires Similar(s, s2)
    ensures Tidy(s2) == Tidy(s) && UniqueNames(s2) == UniqueNames(s) && FirstFree(s2) == FirstFree(s)
  {
    forall i | 0 <= i < |s|
      ensures IsFree(s2[i]) == IsFree(s[i]) && IsEnd(s2[i]) == IsEnd(s[i]) && IsLong(s2[i]) == IsLong(s[i])
      ensures IsShort(s2[i]) == IsShort(s[i]) && ShortName(s2[i]) == ShortName(s[i])
    {
      SameName(s[i], s2[i]);
    }
    var p := FirstFree(s);
    if p < |s| { FirstFreeIs(s2, p); }
  }

  // ------------------------------------------------------------------ growing a directory

  ghost predicate AllEnd(slots: seq<Slot>) {
    forall i :: 0 <= i < |slots| ==> IsEnd(slots[i])
  }

  lemma {:induction false} GrownFrom(slots: seq<Slot>, more: seq<Slot>, name: seq<Byte>, i: nat, l: Lfn)
    requires |l.buffer| == LFN_MAX_CHARS && AllEnd(more) && i <= |slots|
    ensures Scan(slots + more, name, i, l) == Scan(slots, name, i, l)
    decreases |slots| - i
  {
    if i < |slots| && !IsEnd(slots[i]) {
      GrownFrom(slots, more, name, i + 1, LfnReset());
      if IsLong(slots[i]) { GrownFrom(slots, more, name, i + 1, LfnAccumulate(l, slots[i])); }
    }
  }

  /** Appending a zeroed cluster to a directory changes no lookup and no first free slot. */
  lemma GrownDirectory(slots: seq<Slot>, more: seq<Slot>, name: seq<Byte>)
    requires AllEnd(more)
    ensures Lookup(slots + more, name) == Lookup(slots, name)
    ensures Tidy(slots) ==> Tidy(slots + more)
    ensures UniqueNames(slots) ==> UniqueNames(slots + more)
    ensures FirstFree(slots + more) == FirstFree(slots) && Overtaken(slots + more, name) == Overtaken(slots, name)
  {
    GrownFrom(slots, more, name, 0, LfnReset());
    var all, p := slots + more, FirstFree(slots);
    assert forall k :: 0 <= k < |slots| ==> all[k] == slots[k];
    if p < |all| { FirstFreeIs(all, p); }
  }

  // ------------------------------------------------------------- directories on the disk

  function SectorOf(g: Geometry, c: int, s: int): (lba: nat)
    requires 2 <= c && 0 <= s
  {
    g.ClusterLba(c) + s
  }

  function ClusterLbas(g: Geometry, c: int): (r: seq<nat>)
    requires 2 <= c
    ensures |r| == g.spc && forall s :: 0 <= s < g.spc ==> r[s] == g.ClusterLba(c) + s
  {
    seq(g.spc, s requires 0 <= s < g.spc => SectorOf(g, c, s))
  }

  /** The sectors of a chain, in order. */
  function ChainLbas(g: Geometry, ch: seq<U16>): (r: seq<nat>)
    requires AllClusters(g, ch)
  {
    if ch == [] then [] else ClusterLbas(g, ch[0]) + ChainLbas(g, ch[1..])
  }

  function RootLbas(g: Geometry): (r: seq<nat>)
    ensures |r| == g.rootSectors && forall n :: 0 <= n < g.rootSectors ==> r[n] == g.rootStart + n
  {
    seq(g.rootSectors, n requires 0 <= n < g.rootSectors => g.rootStart + n)
  }

  /** The sectors of a directory: the fixed root area or a cluster chain. */
  function DirLbas(g: Geometry, isRoot: bool, ch: seq<U16>): (r: seq<nat>)
    requires AllClusters(g, ch)
  {
    if isRoot then RootLbas(g) else ChainLbas(g, ch)
  }

  lemma {:induction false} ChainLbasIn(g: Geometry, ch: seq<U16>, lba: nat)
    requires AllClusters(g, ch)
    ensures lba in ChainLbas(g, ch) <==> exists i :: 0 <= i < |ch| && Inside(g, ch[i], lba)
    decreases |ch|
  {
    if ch != [] {
      ChainLbasIn(g, ch[1..], lba);
      if Inside(g, ch[0], lba) { assert ClusterLbas(g, ch[0])[lba - g.ClusterLba(ch[0])] == lba; }
      if lba in ChainLbas(g, ch[1..]) {
        var i :| 0 <= i < |ch[1..]| && Inside(g, ch[1..][i], lba);
        assert ch[i + 1] == ch[1..][i];
      }
      if exists i :: 0 <= i < |ch| && Inside(g, ch[i], lba) {
        var i :| 0 <= i < |ch| && Inside(g, ch[i], lba);
        if i > 0 { assert ch[1..][i - 1] == ch[i]; }
      }
    }
  }

  lemma DirLbasOnDisk(g: Geometry, d: Image, isRoot: bool, ch: seq<U16>)
    requires g.Fits(d) && AllClusters(g, ch)
    ensures forall i :: 0 <= i < |DirLbas(g, isRoot, ch)| ==> 0 < g.rootStart <= DirLbas(g, isRoot, ch)[i] < |d|
    ensures OnDisk(d, DirLbas(g, isRoot, ch))
  {
    var lbas := DirLbas(g, isRoot, ch);
    FatSectorsOnDisk(g, d);
    forall i | 0 <= i < |lbas| ensures g.rootStart <= lbas[i] < |d| {
      if !isRoot {
        assert lbas[i] in ChainLbas(g, ch);
        ChainLbasIn(g, ch, lbas[i]);
        var k :| 0 <= k < |ch| && Inside(g, ch[k], lbas[i]);
        HomeOnDisk(g, d, ch[k], lbas[i]);
      }
    }
  }

  lemma {:induction false} ChainLbasConcat(g: Geometry, a: seq<U16>, b: seq<U16>)
    requires AllClusters(g, a) && AllClusters(g, b)
    ensures AllClusters(g, a + b) && ChainLbas(g, a + b) == ChainLbas(g, a) + ChainLbas(g, b)
    decreases |a|
  {
    if a == [] {
      assert a + b == b;
    } else {
      assert (a + b)[1..] == a[1..] + b;
      ChainLbasConcat(g, a[1..], b);
    }
  }

  lemma {:induction false} ChainLbasDistinct(g: Geometry, ch: seq<U16>, i: nat, j: nat)
    requires AllClusters(g, ch) && NoDup(ch) && i < j < |ChainLbas(g, ch)|
    ensures ChainLbas(g, ch)[i] != ChainLbas(g, ch)[j]
    decreases |ch|
  {
    var all, rest := ChainLbas(g, ch), ChainLbas(g, ch[1..]);
    assert forall k, m :: 0 <= k < m < |ch[1..]| ==> ch[1..][k] == ch[k + 1] && ch[1..][m] == ch[m + 1];
    if i >= g.spc {
      ChainLbasDistinct(g, ch[1..], i - g.spc, j - g.spc);
    } else if j >= g.spc {
      var lba := all[j];
      assert lba == rest[j - g.spc];
      assert lba in rest;
      ChainLbasIn(g, ch[1..], lba);
      var k :| 0 <= k < |ch[1..]| && Inside(g, ch[1..][k], lba);
      if all[i] == lba {
        InsideOnlyOne(g, ch[0], ch[1..][k], lba);
      }
    }
  }

  predicate OnDisk(d: Image, lbas: seq<nat>) {
    forall i :: 0 <= i < |lbas| ==> lbas[i] < |d|
  }

  function SlotIn(s: Sector, idx: int): (e: Slot)
    requires 0 <= idx < 16
  {
    s[32 * idx..32 * idx + 32]
  }

  function PutSlot(s: Sector, idx: int, e: Slot): (r: Sector)
    requires 0 <= idx < 16
    ensures forall k :: 0 <= k < 16 ==> SlotIn(r, k) == if k == idx then e else SlotIn(s, k)
  {
    var r := Splice(s, 32 * idx, e);
    assert forall k, b :: 0 <= k < 16 && 0 <= b < 32 ==> SlotIn(r, k)[b] == r[32 * k + b];
    assert forall k, b :: 0 <= k < 16 && 0 <= b < 32 ==> SlotIn(s, k)[b] == s[32 * k + b];
    r
  }

  /** All slots of the given sectors, sixteen per sector. */
  function Slots(d: Image, lbas: seq<nat>): (r: seq<Slot>)
    requires OnDisk(d, lbas)
    ensures |r| == 16 * |lbas|
  {
    seq(16 * |lbas|, i requires 0 <= i < 16 * |lbas| => SlotIn(d[lbas[i / 16]], i % 16))
  }

  function SlotLoc(lbas: seq<nat>, i: int): (loc: Loc)
    requires 0 <= i < 16 * |lbas|
  {
    Loc(lbas[i / 16], i % 16)
  }

  lemma SlotsSame(d: Image, d2: Image, lbas: seq<nat>)
    requires OnDisk(d, lbas) && OnDisk(d2, lbas) && forall i :: 0 <= i < |lbas| ==> d2[lbas[i]] == d[lbas[i]]
    ensures Slots(d2, lbas) == Slots(d, lbas)
  {
  }

  lemma SlotsConcat(d: Image, a: seq<nat>, b: seq<nat>)
    requires OnDisk(d, a) && OnDisk(d, b)
    ensures OnDisk(d, a + b) && Slots(d, a + b) == Slots(d, a) + Slots(d, b)
  {
    var all := Slots(d, a + b);
    forall i | 0 <= i < |all| ensures all[i] == (Slots(d, a) + Slots(d, b))[i] {
      if i >= 16 * |a| {
        assert (i - 16 * |a|) / 16 == i / 16 - |a| && (i - 16 * |a|) % 16 == i % 16;
      }
    }
  }

  function ZeroSector(): (s: Sector)
  {
    seq(512, i => 0)
  }

  lemma ZeroSlots(d: Image, lbas: seq<nat>)
    requires OnDisk(d, lbas) && forall i :: 0 <= i < |lbas| ==> d[lbas[i]] == ZeroSector()
    ensures AllEnd(Slots(d, lbas))
  {
  }

  lemma SectorSlots(d: Image, lbas: seq<nat>, s: nat, i: nat)
    requires OnDisk(d, lbas) && s < |lbas| && i < 16
    ensures lbas[s] < |d|
    ensures Slots(d, lbas)[16 * s + i] == SlotIn(d[lbas[s]], i)
    ensures SlotLoc(lbas, 16 * s + i) == Loc(lbas[s], i)
  {
    assert (16 * s + i) / 16 == s && (16 * s + i) % 16 == i;
  }

  /** fat_dir_sector_lba. */
  method DirSectorLba(g: Geometry, disk: Disk, isRoot: bool, first: U16, n: nat, ghost ch: seq<U16>) returns (lba: nat)
    requires g.Fits(disk.sectors) && AllClusters(g, ch)
    requires !isRoot ==> IsChain(Fat(g, disk.sectors), ch) && |ch| > 0 && ch[0] == first
    ensures lba == if n < |DirLbas(g, isRoot, ch)| then DirLbas(g, isRoot, ch)[n] else 0
  {
    if isRoot {
      if n >= g.rootSectors {
        return 0;
      }
      return g.rootStart + n;
    }
    var cluster := first;
    var sectorInChain := n;
    ghost var i := 0;
    ghost var all := ChainLbas(g, ch);
    assert ch[0..] == ch;
    while sectorInChain >= g.spc
      invariant 0 <= i <= |ch| && 0 <= sectorInChain
      invariant if i < |ch| then cluster == ch[i] else !InChainRange(cluster)
      invariant var rest := ChainLbas(g, ch[i..]);
                (n < |all| <==> sectorInChain < |rest|) && (n < |all| ==> all[n] == rest[sectorInChain])
    {
      if !InChainRange(cluster) {
        assert ch[i..] == [];
        return 0;
      }
      assert ch[i..][1..] == ch[i + 1..];
      NextIsFatEntry(g, disk.sectors, cluster);
      ChainLink(Fat(g, disk.sectors), ch, i);
      cluster := NextCluster(g, disk.sectors, cluster);
      sectorInChain := sectorInChain - g.spc;
      i := i + 1;
    }
    if !InChainRange(cluster) {
      assert ch[i..] == [];
      return 0;
    }
    return g.ClusterLba(cluster) + sectorInChain;
  }

  /** The inner loop of fat_find_entry_in_dir: the sixteen slots of sector s of a directory.
      The long name under reconstruction comes in and goes out. */
  method ScanSector(sector: Sector, name: seq<Byte>, name83: seq<Byte>, l0: Lfn, ghost d: Image, ghost lbas: seq<nat>,
                    ghost s: nat)
    returns (done: bool, found: bool, idx: nat, l: Lfn)
    requires name83 == Name83(name) && |l0.buffer| == LFN_MAX_CHARS
    requires OnDisk(d, lbas) && s < |lbas| && d[lbas[s]] == sector
    ensures |l.buffer| == LFN_MAX_CHARS
    ensures done ==> Scan(Slots(d, lbas), name, 16 * s, l0) == if found then 16 * s + idx else -1
    ensures done && found ==> idx < 16 && Loc(lbas[s], idx) == SlotLoc(lbas, 16 * s + idx)
    ensures !done ==> Scan(Slots(d, lbas), name, 16 * s, l0) == Scan(Slots(d, lbas), name, 16 * (s + 1), l)
  {
    hide Slots, Name83, SlotLoc, SlotIn, LfnAccumulate, LfnReset, MatchesLong;
    ghost var slots := Slots(d, lbas);
    l := l0;
    var i := 0;
    while i < 16
      invariant 0 <= i <= 16 && |l.buffer| == LFN_MAX_CHARS
      invariant Scan(slots, name, 16 * s, l0) == Scan(slots, name, 16 * s + i, l)
    {
      var e := SlotIn(sector, i);
      SectorSlots(d, lbas, s, i);
      if e[0] == 0 {
        return true, false, 0, l;
      }
      if e[0] == DELETED {
        l := LfnReset();
      } else if e[11] == ATTR_LONG_NAME {
        l := LfnAccumulate(l, e);
      } else if IsLabel(e) {
        l := LfnReset();
      } else {
        var matched := ShortName(e) == name83;
        if !matched && MatchesLong(l, e, name) {
          matched := true;
        }
        if matched {
          return true, true, i, LfnReset();
        }
        l := LfnReset();
      }
      i := i + 1;
    }
    return false, false, 0, l;
  }

  /** fat_find_entry_in_dir. */
  method FindEntryInDir(g: Geometry, disk: Disk, isRoot: bool, first: U16, name: seq<Byte>, ghost ch: seq<U16>)
    returns (found: bool, lba: nat, idx: nat)
    requires g.Fits(disk.sectors) && AllClusters(g, ch)
    requires !isRoot ==> IsChain(Fat(g, disk.sectors), ch) && |ch| > 0 && ch[0] == first
    ensures var lbas := DirLbas(g, isRoot, ch);
            && OnDisk(disk.sectors, lbas)
            && var r := Lookup(Slots(disk.sectors, lbas), name);
               if found then 0 <= r && Loc(lba, idx) == SlotLoc(lbas, r) else r == -1
  {
    hide *;
    var name83 := NameTo83(name);
    ghost var lbas := DirLbas(g, isRoot, ch);
    DirLbasOnDisk(g, disk.sectors, isRoot, ch);
    LookupIsScan(Slots(disk.sectors, lbas), name);
    var l := LfnReset();
    var s := 0;
    while true
      invariant 0 <= s <= |lbas| && |l.buffer| == LFN_MAX_CHARS
      invariant Scan(Slots(disk.sectors, lbas), name, 16 * s, l) == Lookup(Slots(disk.sectors, lbas), name)
      decreases |lbas| - s
    {
      lba := DirSectorLba(g, disk, isRoot, first, s, ch);
      if lba == 0 {
        ScanPastEnd(Slots(disk.sectors, lbas), name, 16 * s, l);
        return false, 0, 0;
      }
      OnDiskAt(disk.sectors, lbas, s);
      var done, hit;
      done, hit, idx, l := ScanSector(disk.sectors[lba], name, name83, l, disk.sectors, lbas, s);
      if done {
        return hit, lba, idx;
      }
      s := s + 1;
    }
  }

  lemma OnDiskAt(d: Image, lbas: seq<nat>, s: nat)
    requires OnDisk(d, lbas) && s < |lbas|
    ensures lbas[s] < |d|
  {
  }

  /** The scan of fat_alloc_dir_entry_in_dir over the sectors a directory already has. */
  method FindFreeSlot(g: Geometry, disk: Disk, isRoot: bool, first: U16, ghost ch: seq<U16>)
    returns (found: bool, lba: nat, idx: nat)
    requires g.Fits(disk.sectors) && AllClusters(g, ch)
    requires !isRoot ==> IsChain(Fat(g, disk.sectors), ch) && |ch| > 0 && ch[0] == first
    ensures var lbas := DirLbas(g, isRoot, ch);
            && OnDisk(disk.sectors, lbas)
            && var p := FirstFree(Slots(disk.sectors, lbas));
               (found <==> p < 16 * |lbas|) && (found ==> Loc(lba, idx) == SlotLoc(lbas, p))
  {
    hide *;
    ghost var lbas := DirLbas(g, isRoot, ch);
    DirLbasOnDisk(g, disk.sectors, isRoot, ch);
    ghost var slots := Slots(disk.sectors, lbas);
    var s := 0;
    while true
      invariant 0 <= s <= |lbas|
      invariant forall k :: 0 <= k < 16 * s ==> !IsFree(slots[k])
      decreases |lbas| - s
    {
      lba := DirSectorLba(g, disk, isRoot, first, s, ch);
      if lba == 0 {
        return false, 0, 0;
      }
      found, idx := FreeInSector(disk.sectors[lba]);
      forall k | 16 * s <= k < 16 * s + 16
        ensures slots[k] == SlotIn(disk.sectors[lba], k - 16 * s) && SlotLoc(lbas, k) == Loc(lba, k - 16 * s)
      {
        SectorSlots(disk.sectors, lbas, s, k - 16 * s);
      }
      if found {
        FirstFreeIs(slots, 16 * s + idx);
        return true, lba, idx;
      }
      s := s + 1;
    }
  }

  method FreeInSector(sector: Sector) returns (found: bool, idx: nat)
    ensures found ==> idx < 16 && IsFree(SlotIn(sector, idx))
    ensures idx <= 16 && forall k :: 0 <= k < idx ==> !IsFree(SlotIn(sector, k))
    ensures !found ==> idx == 16
  {
    idx := 0;
    while idx < 16
      invariant 0 <= idx <= 16 && forall k :: 0 <= k < idx ==> !IsFree(SlotIn(sector, k))
    {
      if SlotIn(sector, idx)[0] == 0 || SlotIn(sector, idx)[0] == DELETED {
        return true, idx;
      }
      idx := idx + 1;
    }
    found := false;
  }

  lemma FirstFreeIs(slots: seq<Slot>, p: nat)
    requires p < |slots| && IsFree(slots[p]) && forall k :: 0 <= k < p ==> !IsFree(slots[k])
    ensures FirstFree(slots) == p
  {
  }
}
