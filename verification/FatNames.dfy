/**
  What the directory code makes of names: letters of either case, 8.3 names in upper case, and long
  names, which are stored backwards in groups of slots before the short entry they belong to.
*/
module FatNames {
  import opened Common
  import opened FatDirs

  // ----------------------------------------------------------------- upper and lower case

  const SMALL_A := 97
  const SMALL_Z := 122

  predicate SmallLetter(b: Byte) {
    SMALL_A <= b <= SMALL_Z
  }

  /** The bytes are the same, or the two forms of one letter, which are 32 apart. */
  predicate Twins(a: Byte, b: Byte) {
    a == b || (SmallLetter(a) && b == a - 32) || (SmallLetter(b) && a == b - 32)
  }

  /** The names differ at most in the case of their letters. */
  predicate CaseTwins(a: seq<Byte>, b: seq<Byte>) {
    |a| == |b| && forall k :: 0 <= k < |a| ==> Twins(a[k], b[k])
  }

  /** The form of a byte that is not a small letter: a capital for a small letter, else itself. */
  predicate Capital(b: Byte, c: Byte) {
    Twins(b, c) && !SmallLetter(c)
  }

  /** The comparison of long names tells names apart exactly if they differ in more than case. */
  lemma EqualMeansTwins(a: seq<Byte>, b: seq<Byte>)
    ensures EqualIgnoringCase(a, b) <==> CaseTwins(a, b)
  {
    if EqualIgnoringCase(a, b) {
      forall k | 0 <= k < |a| ensures Twins(a[k], b[k]) {
        assert Uppers(a)[k] == Uppers(b)[k];
      }
    } else if |a| == |b| {
      var k :| 0 <= k < |a| && Uppers(a)[k] != Uppers(b)[k];
      assert !Twins(a[k], b[k]);
    }
  }

  /** Every byte of the 8.3 form: the first eight before the first dot and the three behind it, as
      capitals, and spaces. */
  lemma Name83Bytes(name: seq<Byte>, dot: nat, m: nat)
    requires m < 11 && dot <= |name| && DOT !in name[..dot] && (dot < |name| ==> name[dot] == DOT)
    ensures m < 8 ==> if m < dot then Capital(name[m], Name83(name)[m]) else Name83(name)[m] == SPACE
    ensures m >= 8 ==>
      if dot + m - 7 < |name| then Capital(name[dot + m - 7], Name83(name)[m]) else Name83(name)[m] == SPACE
  {
    assert forall k :: 0 <= k < dot ==> name[k] == name[..dot][k];
    BeforeDot(name, dot);
    if DotAt(name) < dot {
      BeforeDot(name, DotAt(name));
    }
  }

  /** No byte of an 8.3 form is a small letter. */
  lemma Name83HasNoSmall(name: seq<Byte>, m: nat)
    requires m < 11
    ensures !SmallLetter(Name83(name)[m])
  {
    Name83Bytes(name, DotAt(name), m);
  }

  lemma {:induction false} TwinsDot(a: seq<Byte>, b: seq<Byte>)
    requires CaseTwins(a, b)
    ensures DotAt(a) == DotAt(b)
    decreases |a|
  {
    if a != [] && a[0] != DOT {
      TwinsDot(a[1..], b[1..]);
    }
  }

  lemma Twins83(a: seq<Byte>, b: seq<Byte>)
    requires CaseTwins(a, b)
    ensures Name83(a) == Name83(b)
  {
    TwinsDot(a, b);
    forall m | 0 <= m < 11 ensures Name83(a)[m] == Name83(b)[m] {
      Name83Bytes(a, DotAt(a), m);
      Name83Bytes(b, DotAt(b), m);
    }
  }

  lemma {:induction false} TwinsScan(slots: seq<Slot>, a: seq<Byte>, b: seq<Byte>, i: nat, l: Lfn)
    requires CaseTwins(a, b) && |l.buffer| == LFN_MAX_CHARS
    ensures Scan(slots, a, i, l) == Scan(slots, b, i, l)
    decreases |slots| - i
  {
    Twins83(a, b);
    EqualMeansTwins(a, b);
    hide Name83, LfnAccumulate, CaseTwins, NameChecksum, CString;
    if i < |slots| && !IsEnd(slots[i]) {
      TwinsScan(slots, a, b, i + 1, LfnReset());
      if IsLong(slots[i]) { TwinsScan(slots, a, b, i + 1, LfnAccumulate(l, slots[i])); }
    }
  }

  /** In every directory a name finds the same entry in any case. */
  lemma CaseBlind(slots: seq<Slot>, a: seq<Byte>, b: seq<Byte>)
    requires CaseTwins(a, b)
    ensures Lookup(slots, a) == Lookup(slots, b)
  {
    TwinsScan(slots, a, b, 0, LfnReset());
  }

  lemma {:induction false} ScanReaches(slots: seq<Slot>, name: seq<Byte>, i: nat, l: Lfn, k: nat)
    requires |l.buffer| == LFN_MAX_CHARS && i <= k < |slots| && (forall m :: i <= m < k ==> !IsEnd(slots[m]))
    requires IsShort(slots[k]) && ShortName(slots[k]) == Name83(name)
    ensures i <= Scan(slots, name, i, l) <= k
    decreases k - i
  {
    hide Name83, LfnAccumulate, NameChecksum, CString, EqualIgnoringCase, ShortName;
    if i < k {
      ScanReaches(slots, name, i + 1, if IsLong(slots[i]) then LfnAccumulate(l, slots[i]) else LfnReset(), k);
    }
  }

  /** An entry before the end mark is found, or another before it, under every spelling of its 8.3
      name: bytes of the name, in any case, where the entry has their capitals. */
  lemma StoredIsFound(slots: seq<Slot>, name: seq<Byte>, dot: nat, k: nat)
    requires k < |slots| && IsShort(slots[k]) && forall m :: 0 <= m < k ==> !IsEnd(slots[m])
    requires dot <= |name| && DOT !in name[..dot] && (dot < |name| ==> name[dot] == DOT)
    requires forall m :: 0 <= m < 8 ==> if m < dot then Capital(name[m], slots[k][m]) else slots[k][m] == SPACE
    requires forall m :: 8 <= m < 11 ==>
      if dot + m - 7 < |name| then Capital(name[dot + m - 7], slots[k][m]) else slots[k][m] == SPACE
    ensures 0 <= Lookup(slots, name) <= k
  {
    forall m | 0 <= m < 11 ensures Name83(name)[m] == ShortName(slots[k])[m] {
      Name83Bytes(name, dot, m);
    }
    assert ShortName(slots[k]) == Name83(name);
    hide Name83, ShortName, Capital;
    ScanReaches(slots, name, 0, LfnReset(), k);
  }

  /** A file that was created under one spelling is found under every other. */
  lemma CreatedInAnyCase(slots: seq<Slot>, name: seq<Byte>, other: seq<Byte>, e: Slot)
    requires Lookup(slots, name) == -1 && FirstFree(slots) < |slots| && IsShort(e) && ShortName(e) == Name83(name)
    requires CaseTwins(name, other)
    ensures Lookup(slots[FirstFree(slots) := e], other) == FirstFree(slots)
  {
    CreatedIsFound(slots, name, e);
    CaseBlind(slots[FirstFree(slots) := e], name, other);
  }

  // ------------------------------------------------------------------- the name checksum

  /** r is s rotated right by one bit: twice r is s, or s with the bit that was lost put on top. */
  predicate RotatedRight(s: Byte, r: int) {
    2 * r == s || 2 * r == s + 255
  }

  /** Each byte of a short name is added to the sum so far, rotated right by one bit. */
  lemma ChecksumRotates(name: seq<Byte>, b: Byte, r: int)
    requires RotatedRight(NameChecksum(name), r)
    ensures NameChecksum([]) == 0 && NameChecksum(name + [b]) == (r + b) % 256
  {
    assert (name + [b])[..|name|] == name;
  }

  lemma AddTellsApart(s: nat, t: nat, b: Byte, c: Byte)
    requires s < 256 && t < 256 && (s != t) != (b != c)
    ensures (s % 2 * 0x80 + s / 2 + b) % 256 != (t % 2 * 0x80 + t / 2 + c) % 256
  {
    var u, v := s % 2 * 0x80 + s / 2, t % 2 * 0x80 + t / 2;
    assert (u == v <==> s == t) && u < 256 && v < 256;
    assert (u + b) % 256 == if u + b < 256 then u + b else u + b - 256;
    assert (v + c) % 256 == if v + c < 256 then v + c else v + c - 256;
  }

  /** Short names that differ in one byte have different checksums, so a long name left behind
      is not taken for one of a file whose short name was changed in one place. */
  lemma {:induction false} ChecksumTellsOneByte(a: seq<Byte>, b: seq<Byte>, k: nat)
    requires k < |a| == |b| && a[k] != b[k] && forall m :: 0 <= m < |a| && m != k ==> a[m] == b[m]
    ensures NameChecksum(a) != NameChecksum(b)
    decreases |a|
  {
    var n := |a| - 1;
    if k < n {
      ChecksumTellsOneByte(a[..n], b[..n], k);
    } else {
      assert a[..n] == b[..n];
    }
    AddTellsApart(NameChecksum(a[..n]), NameChecksum(b[..n]), a[n], b[n]);
  }

  // ------------------------------------------------------------------- long-name groups

  /** The characters that the buffer has room for: 19 entries of 13. */
  const LONG_MAX := 247

  /** The 16-bit character at a place of a stored long name: the text, a terminator, padding. */
  function LongChar(text: seq<Byte>, at: nat): (c: nat)
    ensures c < 0x1_0000
  {
    if at < |text| then text[at] else if at == |text| then 0 else 0xFFFF
  }

  /** Byte k of the n-th entry of a long name; the last one comes first and carries a mark. */
  function LongByte(text: seq<Byte>, checksum: Byte, n: nat, last: bool, k: nat): (b: Byte)
    requires k < 32 && 1 <= n <= 20
  {
    if k == 0 then n + (if last then 0x40 else 0)
    else if k == 11 then ATTR_LONG_NAME
    else if k == 12 || k == 26 || k == 27 then 0
    else if k == 13 then checksum
    else
      var i := if k < 11 then (k - 1) / 2 else if k < 26 then 5 + (k - 14) / 2 else 11 + (k - 28) / 2;
      var c := LongChar(text, 13 * (n - 1) + i);
      if k == CharAt(i) then c % 256 else c / 256
  }

  function LongSlot(text: seq<Byte>, checksum: Byte, n: nat, last: bool): (e: Slot)
    requires 1 <= n <= 20
  {
    seq(32, k requires 0 <= k < 32 => LongByte(text, checksum, n, last, k))
  }

  /** The entry holds the characters of the text from base on. */
  predicate Shows(e: Slot, text: seq<Byte>, base: nat) {
    forall i :: 0 <= i < 13 ==> ShownAt(e, i) == LongChar(text, base + i)
  }

  function ShownAt(e: Slot, i: nat): (c: nat)
    requires i < 13
  {
    var lo: int, hi: int := e[CharAt(i)], e[CharAt(i) + 1];
    lo + 256 * hi
  }

  lemma LongSlotChar(text: seq<Byte>, checksum: Byte, n: nat, last: bool, i: nat)
    requires 1 <= n <= 20 && i < 13
    ensures ShownAt(LongSlot(text, checksum, n, last), i) == LongChar(text, 13 * (n - 1) + i)
  {
    hide LongChar;
    var k := CharAt(i);
    assert (if k < 11 then (k - 1) / 2 else if k < 26 then 5 + (k - 14) / 2 else 11 + (k - 28) / 2) == i;
    assert (if k < 10 then k / 2 else if k < 25 then 5 + (k - 13) / 2 else 11 + (k - 27) / 2) == i;
  }

  lemma LongSlotIs(text: seq<Byte>, checksum: Byte, n: nat, last: bool)
    requires 1 <= n <= 20
    ensures var e := LongSlot(text, checksum, n, last);
            IsLong(e) && e[0] % 32 == n && e[13] == checksum && Shows(e, text, 13 * (n - 1))
  {
    var e := LongSlot(text, checksum, n, last);
    assert e[0] == LongByte(text, checksum, n, last, 0) && e[11] == LongByte(text, checksum, n, last, 11);
    assert e[13] == LongByte(text, checksum, n, last, 13);
    hide LongSlot, ShownAt, LongChar, CharAt;
    forall i | 0 <= i < 13 ensures ShownAt(e, i) == LongChar(text, 13 * (n - 1) + i) {
      LongSlotChar(text, checksum, n, last, i);
    }
  }

  /** Entries n to 1, and the whole group: the last entry comes first. */
  function LongRest(text: seq<Byte>, checksum: Byte, n: nat): (s: seq<Slot>)
    requires n <= 20
    ensures |s| == n
  {
    if n == 0 then [] else [LongSlot(text, checksum, n, false)] + LongRest(text, checksum, n - 1)
  }

  function Entries(text: seq<Byte>): (m: nat) {
    (|text| + 12) / 13
  }

  function LongGroup(text: seq<Byte>, checksum: Byte): (s: seq<Slot>)
    requires 1 <= |text| <= 255
    ensures |s| == Entries(text)
  {
    [LongSlot(text, checksum, Entries(text), true)] + LongRest(text, checksum, Entries(text) - 1)
  }

  lemma OneLongSlot(text: seq<Byte>, checksum: Byte)
    requires 1 <= |text| <= 13
    ensures LongGroup(text, checksum) == [LongSlot(text, checksum, 1, true)]
    ensures IsLong(LongSlot(text, checksum, 1, true))
  {
    hide LongSlot;
    LongSlotIs(text, checksum, 1, true);
  }

  /** The characters that the driver can take: not 0, and not beyond ASCII. */
  predicate Plain(text: seq<Byte>) {
    forall k :: 0 <= k < |text| ==> 0 < text[k] < 128
  }

  lemma PutNone(buffer: seq<Byte>, e: Slot, base: nat)
    requires base + 13 <= |buffer|
    ensures PutChars(buffer, e, base, 13) == buffer
  {
  }

  lemma PutOne(buffer: seq<Byte>, e: Slot, base: nat, i: nat)
    requires i < 13 && base + 13 <= |buffer|
    ensures ShownAt(e, i) == 0 ==> PutChars(buffer, e, base, i) == buffer[base + i := 0]
    ensures 0 < ShownAt(e, i) < 128 ==>
      PutChars(buffer, e, base, i) == PutChars(buffer[base + i := ShownAt(e, i)], e, base, i + 1)
  {
  }

  /** The entry's characters from i on are in place, up to the terminator. */
  lemma {:induction false} PutCharsPlaces(buffer: seq<Byte>, e: Slot, text: seq<Byte>, base: nat, i: nat)
    requires |buffer| == LFN_MAX_CHARS && i <= 13 && base + 13 < LFN_MAX_CHARS && base + i <= |text| && Plain(text)
    requires Shows(e, text, base)
    ensures var r := PutChars(buffer, e, base, i);
            && (forall p :: base + i <= p < base + 13 && p < |text| ==> r[p] == text[p])
            && (|text| < base + 13 ==> r[|text|] == 0)
            && (forall p :: 0 <= p < LFN_MAX_CHARS && (p < base + i || p >= base + 13) ==> r[p] == buffer[p])
    decreases 13 - i
  {
    if i < 13 {
      PutOne(buffer, e, base, i);
      assert ShownAt(e, i) == LongChar(text, base + i);
    }
    hide CharAt, PutChars, ShownAt;
    if i == 13 {
      PutNone(buffer, e, base);
    } else if base + i < |text| {
      PutCharsPlaces(buffer[base + i := text[base + i]], e, text, base, i + 1);
    }
  }

  /** The part of the text from the n-th entry's end on is in the buffer, followed by a zero. */
  ghost predicate Gathered(l: Lfn, text: seq<Byte>, checksum: Byte, n: nat) {
    && |l.buffer| == LFN_MAX_CHARS && |text| <= LONG_MAX && l.hasData && l.valid && l.checksum == checksum
    && (forall p :: 13 * n <= p < |text| ==> l.buffer[p] == text[p]) && l.buffer[|text|] == 0
  }

  /** Nothing is gathered yet, and what is in the buffer is what a reset leaves. */
  ghost predicate Started(l: Lfn, text: seq<Byte>, checksum: Byte, n: nat) {
    l == LfnReset() && |text| <= LONG_MAX && |text| <= 13 * n
  }

  lemma GatherOne(l: Lfn, text: seq<Byte>, checksum: Byte, n: nat, last: bool)
    requires 1 <= n <= 19 && 13 * (n - 1) <= |text| && Plain(text)
    requires Started(l, text, checksum, n) || Gathered(l, text, checksum, n)
    ensures Gathered(LfnAccumulate(l, LongSlot(text, checksum, n, last)), text, checksum, n - 1)
  {
    hide LongSlot, CharAt, LongChar, Shows, PutChars;
    LongSlotIs(text, checksum, n, last);
    PutCharsPlaces(l.buffer, LongSlot(text, checksum, n, last), text, 13 * (n - 1), 0);
  }

  lemma RestFirst(slots: seq<Slot>, i: nat, text: seq<Byte>, checksum: Byte, n: nat)
    requires 0 < n <= 20 && i + n <= |slots| && slots[i..i + n] == LongRest(text, checksum, n)
    ensures slots[i] == LongSlot(text, checksum, n, false)
    ensures slots[i + 1..i + n] == LongRest(text, checksum, n - 1)
  {
    hide LongSlot;
    assert slots[i] == slots[i..i + n][0] && slots[i + 1..i + n] == slots[i..i + n][1..];
  }

  lemma ScanLong(slots: seq<Slot>, name: seq<Byte>, i: nat, l: Lfn)
    requires i < |slots| && |l.buffer| == LFN_MAX_CHARS && IsLong(slots[i])
    ensures Scan(slots, name, i, l) == Scan(slots, name, i + 1, LfnAccumulate(l, slots[i]))
  {
    hide LfnAccumulate, Name83, MatchesLong;
  }

  /** The lookup reads the entries n to 1 and comes to the short entry with the text gathered. */
  lemma {:induction false} ScanRest(slots: seq<Slot>, name: seq<Byte>, i: nat, l: Lfn, text: seq<Byte>, checksum: Byte,
                                    n: nat) returns (g: Lfn)
    requires n <= 19 && i + n <= |slots| && slots[i..i + n] == LongRest(text, checksum, n) && Plain(text)
    requires |l.buffer| == LFN_MAX_CHARS && (n > 0 ==> 13 * (n - 1) <= |text|)
    requires Gathered(l, text, checksum, n) || (n > 0 && Started(l, text, checksum, n))
    ensures Gathered(g, text, checksum, 0) && Scan(slots, name, i, l) == Scan(slots, name, i + n, g)
    decreases n
  {
    g := l;
    if n > 0 {
      hide LongSlot, LongRest, LfnAccumulate, Gathered, Started, Scan, Shows;
      var e := LongSlot(text, checksum, n, false);
      RestFirst(slots, i, text, checksum, n);
      LongSlotIs(text, checksum, n, false);
      GatherOne(l, text, checksum, n, false);
      ScanLong(slots, name, i, l);
      g := ScanRest(slots, name, i + 1, LfnAccumulate(l, e), text, checksum, n - 1);
    }
  }

  lemma {:induction false} CStringIs(b: seq<Byte>, text: seq<Byte>)
    requires |text| < |b| && b[..|text|] == text && 0 !in text && b[|text|] == 0
    ensures CString(b) == text
    decreases |text|
  {
    if text != [] {
      assert b[1..][..|text| - 1] == text[1..] && b[0] == text[0];
      CStringIs(b[1..], text[1..]);
    }
  }

  /** What the driver keeps of a long name: 247 characters. */
  function Kept(text: seq<Byte>): (t: seq<Byte>) {
    if |text| <= LONG_MAX then text else text[..LONG_MAX]
  }

  lemma {:induction false} SameRest(text: seq<Byte>, checksum: Byte, n: nat)
    requires n <= 19
    ensures LongRest(text, checksum, n) == LongRest(Kept(text), checksum, n)
    decreases n
  {
    if n > 0 {
      SameRest(text, checksum, n - 1);
      assert LongSlot(text, checksum, n, false) == LongSlot(Kept(text), checksum, n, false);
    }
  }

  /** Entries with a place behind the buffer's end are passed over. */
  lemma TwentiethIgnored(text: seq<Byte>, checksum: Byte)
    ensures LfnAccumulate(LfnReset(), LongSlot(text, checksum, 20, true)) == LfnReset()
  {
    LongSlotIs(text, checksum, 20, true);
  }

  lemma ScanGroup(slots: seq<Slot>, name: seq<Byte>, p: nat, text: seq<Byte>, checksum: Byte) returns (g: Lfn)
    requires 1 <= |text| <= 255 && Plain(text) && p + Entries(text) <= |slots|
    requires slots[p..p + Entries(text)] == LongGroup(text, checksum)
    ensures Gathered(g, Kept(text), checksum, 0)
    ensures Scan(slots, name, p, LfnReset()) == Scan(slots, name, p + Entries(text), g)
  {
    hide LongSlot, LongRest, LongGroup, LfnAccumulate, Scan, Shows, Entries, Gathered;
    var m := Entries(text);
    EntriesAre(text);
    GroupFirst(slots, p, text, checksum);
    LongSlotIs(text, checksum, m, true);
    SameRest(text, checksum, m - 1);
    var l := LfnAccumulate(LfnReset(), LongSlot(text, checksum, m, true));
    if m == 20 {
      TwentiethIgnored(text, checksum);
    } else {
      GatherOne(LfnReset(), text, checksum, m, true);
    }
    ScanLong(slots, name, p, LfnReset());
    g := ScanRest(slots, name, p + 1, l, Kept(text), checksum, m - 1);
  }

  lemma EntriesAre(text: seq<Byte>)
    requires 1 <= |text| <= 255
    ensures 1 <= Entries(text) <= 20 && 13 * (Entries(text) - 1) < |text| <= 13 * Entries(text)
  {
  }

  lemma GroupFirst(slots: seq<Slot>, p: nat, text: seq<Byte>, checksum: Byte)
    requires 1 <= |text| <= 255 && p + Entries(text) <= |slots|
    requires slots[p..p + Entries(text)] == LongGroup(text, checksum)
    ensures var m := Entries(text);
            && 1 <= m <= 20 && slots[p] == LongSlot(text, checksum, m, true)
            && slots[p + 1..p + m] == LongRest(text, checksum, m - 1)
  {
    var m := Entries(text);
    EntriesAre(text);
    hide LongSlot, LongRest, Entries;
    assert slots[p] == slots[p..p + m][0] && slots[p + 1..p + m] == slots[p..p + m][1..];
  }

  /** A file stored with a long name is found at its short entry if and only if the name is its 8.3
      name, or, where the checksum is that of the short entry, the long name or what the driver keeps
      of it, in any case; else the lookup goes on behind it. */
  lemma LongFound(slots: seq<Slot>, name: seq<Byte>, p: nat, text: seq<Byte>, checksum: Byte)
    requires 1 <= |text| <= 255 && Plain(text) && p + Entries(text) < |slots| && IsShort(slots[p + Entries(text)])
    requires slots[p..p + Entries(text)] == LongGroup(text, checksum)
    ensures var at := p + Entries(text);
            var belongs := checksum == NameChecksum(ShortName(slots[at]));
            Scan(slots, name, p, LfnReset()) ==
            if ShortName(slots[at]) == Name83(name) || (belongs && CaseTwins(name, Kept(text))) then at
            else Scan(slots, name, at + 1, LfnReset())
  {
    hide Name83, NameChecksum, CString, EqualIgnoringCase, CaseTwins, LongGroup, Entries, Gathered, LfnAccumulate;
    var at := p + Entries(text);
    var g := ScanGroup(slots, name, p, text, checksum);
    GatheredIs(g, Kept(text), checksum);
    EqualMeansTwins(name, Kept(text));
    hide Kept;
  }

  lemma GatheredIs(g: Lfn, text: seq<Byte>, checksum: Byte)
    requires Gathered(g, text, checksum, 0) && Plain(text)
    ensures |g.buffer| == LFN_MAX_CHARS && g.hasData && g.valid && g.checksum == checksum && CString(g.buffer) == text
  {
    assert g.buffer[..|text|] == text;
    CStringIs(g.buffer, text);
  }

  /** So it is found under its whole long name, unless that is its 8.3 name, exactly up to 247
      characters; FAT allows 255. */
  lemma LongFoundExactly(slots: seq<Slot>, p: nat, text: seq<Byte>)
    requires 1 <= |text| <= 255 && Plain(text) && p + Entries(text) + 1 == |slots| && IsShort(slots[p + Entries(text)])
    requires slots[p..p + Entries(text)] == LongGroup(text, NameChecksum(ShortName(slots[p + Entries(text)])))
    requires ShortName(slots[p + Entries(text)]) != Name83(text)
    ensures Scan(slots, text, p, LfnReset()) == p + Entries(text) <==> |text| <= LONG_MAX
  {
    LongFound(slots, text, p, text, NameChecksum(ShortName(slots[p + Entries(text)])));
  }

  /** The entry's place in the buffer exists, so that it is looked at. */
  predicate Counts(e: Slot) {
    IsLong(e) && 1 <= e[0] % 32 <= 19
  }

  /** What the gathered name knows of the checksums of the entries from p to i. */
  ghost predicate SeenAlike(l: Lfn, slots: seq<Slot>, p: nat, i: nat)
    requires p <= i <= |slots|
  {
    && |l.buffer| == LFN_MAX_CHARS
    && (forall k :: p <= k < i && Counts(slots[k]) ==> l.hasData)
    && (l.valid && l.hasData ==> forall k :: p <= k < i && Counts(slots[k]) ==> slots[k][13] == l.checksum)
  }

  lemma {:induction false} ScanAlike(slots: seq<Slot>, name: seq<Byte>, p: nat, i: nat, j: nat, l: Lfn) returns (g: Lfn)
    requires p <= i <= j < |slots| && (forall k :: i <= k < j ==> IsLong(slots[k])) && SeenAlike(l, slots, p, i)
    ensures SeenAlike(g, slots, p, j) && Scan(slots, name, i, l) == Scan(slots, name, j, g)
    decreases j - i
  {
    g := l;
    if i < j {
      ScanLong(slots, name, i, l);
      var next := LfnAccumulate(l, slots[i]);
      assert SeenAlike(next, slots, p, i + 1);
      hide LfnAccumulate, Scan, SeenAlike;
      g := ScanAlike(slots, name, p, i + 1, j, next);
    }
  }

  /** Long-name entries with different checksums belong to no short entry: the one behind them is found
      under its 8.3 name only. */
  lemma MixedIgnored(slots: seq<Slot>, name: seq<Byte>, p: nat, at: nat, a: nat, b: nat)
    requires p <= a < b < at < |slots| && (forall k :: p <= k < at ==> IsLong(slots[k])) && IsShort(slots[at])
    requires Counts(slots[a]) && Counts(slots[b]) && slots[a][13] != slots[b][13]
    ensures Scan(slots, name, p, LfnReset()) ==
            if ShortName(slots[at]) == Name83(name) then at else Scan(slots, name, at + 1, LfnReset())
  {
    var g := ScanAlike(slots, name, p, p, at, LfnReset());
    assert !(g.valid && g.hasData);
    hide Name83, NameChecksum, CString, EqualIgnoringCase, Counts;
  }

  // ------------------------------------------- a new entry that takes a path from an old one

  /** Names without a dot that agree in their first eight characters have one 8.3 form. */
  lemma Same83(a: seq<Byte>, b: seq<Byte>)
    requires DOT !in a && DOT !in b && |a| >= 8 && |b| >= 8 && a[..8] == b[..8]
    ensures Name83(a) == Name83(b)
  {
    assert forall k :: 0 <= k < |a| ==> a[k] != DOT;
    assert forall k :: 0 <= k < |b| ==> b[k] != DOT;
    assert DotAt(a) == |a| && DotAt(b) == |b|;
    hide DotAt;
    forall m | 0 <= m < 11 ensures Name83(a)[m] == Name83(b)[m] {
      assert m < 8 ==> a[m] == a[..8][m] && b[m] == b[..8][m];
    }
  }

  /** A directory with a deleted slot, and behind it a file with a long name, as another system
      stores it: a long-name entry and a short one. */
  predicate LongNamed(slots: seq<Slot>, text: seq<Byte>) {
    && |slots| >= 3 && (|slots| > 3 ==> IsEnd(slots[3])) && slots[0][0] == DELETED
    && IsShort(slots[2]) && ShortName(slots[2]) != Name83(text)
    && 8 < |text| < 13 && DOT !in text && Plain(text)
    && slots[1..2] == LongGroup(text, NameChecksum(ShortName(slots[2])))
  }

  lemma FoundByLongName(slots: seq<Slot>, text: seq<Byte>, name: seq<Byte>)
    requires LongNamed(slots, text) && Name83(name) == Name83(text)
    ensures Lookup(slots, name) == if EqualIgnoringCase(name, text) then 2 else -1
  {
    hide LfnAccumulate, LfnReset, Name83, MatchesLong, ShortName, NameChecksum, LongGroup, EqualIgnoringCase;
    assert Lookup(slots, name) == Scan(slots, name, 1, LfnReset());
    LongFound(slots, name, 1, text, NameChecksum(ShortName(slots[2])));
    EqualMeansTwins(name, text);
    assert Scan(slots, name, 3, LfnReset()) == -1;
  }

  /** A directory with a deleted slot before a file that has a long name: making a file whose
      name agrees with it in the first eight characters, and which is not there yet, moves
      lookups of the old name to the new entry ("longname1" after making "longname2"). */
  lemma LongNameMoves(slots: seq<Slot>, text: seq<Byte>, other: seq<Byte>, e: Slot)
    requires LongNamed(slots, text) && DOT !in other && |other| >= 8 && other[..8] == text[..8]
    requires !EqualIgnoringCase(other, text)
    requires IsShort(e) && ShortName(e) == Name83(other)
    ensures Lookup(slots, text) == 2 && Lookup(slots, other) == -1 && FirstFree(slots) == 0
    ensures Lookup(slots[0 := e], text) == 0
  {
    Same83(text, other);
    FoundByLongName(slots, text, text);
    FoundByLongName(slots, text, other);
    hide Lookup, Name83, LongGroup;
    CreatedOvertakes(slots, text, e);
  }

  const LONGNAME1: seq<Byte> := [108, 111, 110, 103, 110, 97, 109, 101, 49]
  const LONGNAME2: seq<Byte> := [108, 111, 110, 103, 110, 97, 109, 101, 50]

  /** The files of the comment above: "longname1", stored with a short name like "LONGNA~1". */
  lemma LongName1(slots: seq<Slot>)
    requires |slots| >= 3 && (|slots| > 3 ==> IsEnd(slots[3])) && slots[0][0] == DELETED && IsShort(slots[2])
    requires ShortName(slots[2])[6] == 126 && slots[1..2] == LongGroup(LONGNAME1, NameChecksum(ShortName(slots[2])))
    ensures LongNamed(slots, LONGNAME1)
  {
    hide LongGroup, NameChecksum, Name83, ShortName;
    LongName1Text();
  }

  lemma LongName1Text()
    ensures DOT !in LONGNAME1 && Plain(LONGNAME1) && Name83(LONGNAME1)[6] == 77
  {
    hide Name83;
    Name83Bytes(LONGNAME1, 9, 6);
  }

  lemma LongName2()
    ensures !EqualIgnoringCase(LONGNAME2, LONGNAME1) && LONGNAME2[..8] == LONGNAME1[..8] && |LONGNAME2| == 9
    ensures DOT !in LONGNAME2 && SLASH !in LONGNAME1 && SLASH !in LONGNAME2
  {
    assert Uppers(LONGNAME1)[8] != Uppers(LONGNAME2)[8];
  }
}
