/** The metadata of a restart: what a server saves when it stops, and what the next one makes of it. */
module Restart {
  import opened Bytes
  import opened Decimal
  import opened Options

  const TWO31: int := 0x8000_0000
  const TWO32: int := 0x1_0000_0000
  const MIN64: int := -0x8000_0000_0000_0000

  type u64 = n: nat | n < TWO64
  type u32 = n: nat | n < TWO32
  type i32 = n: int | -TWO31 <= n < TWO31
  type i64 = n: int | MIN64 <= n < TWO63

  // ----- Signed and 32-bit numbers as text -----

  /** %d. */
  function SItoa(v: int): seq<byte> {
    if v < 0 then [MINUS] + Itoa(-v) else Itoa(v)
  }

  /** strtoll with a base of 10, and the check of what follows the digits. */
  function StrToLL(s: seq<byte>): Option<i64> {
    var i := SkipSpaces(s, 0);
    var negative := i < |s| && s[i] == MINUS;
    var start := if i < |s| && (s[i] == MINUS || s[i] == PLUS) then i + 1 else i;
    var end := SkipDigits(s, start);
    if start == end then None
    else
      var digits: int := Value(s[start..end]);
      var v := if negative then -digits else digits;
      if !(MIN64 <= v < TWO63) then None
      else if end < |s| && !IsSpace(s[end]) then None
      else Some(v)
  }

  /** safe_strtol: a long, cut down to 32 bits. */
  function StrToL(s: seq<byte>): Option<i32> {
    var r := StrToLL(s);
    if r.None? then None else Some((r.value + TWO31) % TWO32 - TWO31)
  }

  /** safe_strtoul: an unsigned long, cut down to 32 bits. */
  function StrToUL(s: seq<byte>): Option<u32> {
    var r := StrToULL(s);
    if r.None? then None else Some(r.value % TWO32)
  }

  lemma ItoaStart(v: nat)
    ensures var s := Itoa(v); IsDigit(s[0]) && SkipSpaces(s, 0) == 0 && MINUS !in s
  {
    var s := Itoa(v);
    var first := s[0];
    assert first == s[0] && IsDigit(first);
    assert !IsSpace(first);
  }

  lemma DigitsAll(v: nat)
    ensures var s := Itoa(v); SkipDigits(s, 0) == |s| && s[0..|s|] == s
  {
    var s := Itoa(v);
    assert s[0..|s|] == s;
    SkipDigitsTo(s, 0, |s|);
  }

  lemma ReadUnsigned(v: nat)
    requires v < TWO64
    ensures StrToULL(Itoa(v)) == Some(v)
  {
    DigitsAll(v);
    ItoaStart(v);
    ValueOfItoa(v);
  }

  lemma ReadNatural(v: nat)
    ensures StrToLL(Itoa(v)) == if v < TWO63 then Some(v) else None
  {
    DigitsAll(v);
    ItoaStart(v);
    ValueOfItoa(v);
  }

  lemma ReadNegative(v: nat)
    ensures StrToLL([MINUS] + Itoa(v)) == if v <= TWO63 then Some(-(v as int)) else None
  {
    var d := Itoa(v);
    var s := [MINUS] + d;
    assert s[1..|s|] == d;
    SkipDigitsTo(s, 1, |s|);
    ValueOfItoa(v);
    assert s[0] == MINUS && SkipSpaces(s, 0) == 0;
  }

  /** A number is read back exactly when it has 64 bits. */
  lemma ReadSigned(v: int)
    ensures StrToLL(SItoa(v)) == if MIN64 <= v < TWO63 then Some(v) else None
    ensures v >= 0 ==> SItoa(v) == Itoa(v)
    ensures v < 0 ==> SItoa(v)[0] == MINUS && SItoa(v)[1..] == Itoa(-v)
  {
    if v < 0 { ReadNegative(-v); } else { ReadNatural(v); }
  }

  /** The number that safe_strtoll makes of a string, by its parts (see Decimal.Splits). */
  lemma StrToLLAccepts(s: seq<byte>, spaces: seq<byte>, sign: seq<byte>, digits: seq<byte>, rest: seq<byte>)
    requires Splits(s, spaces, sign, digits, rest)
    ensures var v: int := if sign == [MINUS] then -(Value(digits) as int) else Value(digits);
      StrToLL(s) == if MIN64 <= v < TWO63 then Some(v) else None
  {
    SplitPlaces(s, spaces, sign, digits, rest);
  }

  lemma StrToLLSplits(s: seq<byte>)
    returns (spaces: seq<byte>, sign: seq<byte>, digits: seq<byte>, rest: seq<byte>)
    requires StrToLL(s).Some?
    ensures Splits(s, spaces, sign, digits, rest)
  {
    var i := SkipSpaces(s, 0);
    var start := if i < |s| && (s[i] == MINUS || s[i] == PLUS) then i + 1 else i;
    var end := SkipDigits(s, start);
    SpacesSkipped(s, 0);
    spaces, sign, digits, rest := s[..i], s[i..start], s[start..end], s[end..];
    NumberParts(s, i, start, end);
  }

  /** The shorter readers take the same strings, and keep 32 bits of the number. */
  lemma ShortReaders(s: seq<byte>)
    ensures StrToL(s).Some? <==> StrToLL(s).Some?
    ensures StrToL(s).Some? ==> (StrToL(s).value - StrToLL(s).value) % TWO32 == 0
    ensures StrToUL(s).Some? <==> StrToULL(s).Some?
    ensures StrToUL(s).Some? ==> StrToUL(s).value == StrToULL(s).value % 0x1_0000_0000
  {
  }

  // ----- Pointers as text -----

  function HexDigit(n: nat): byte
    requires n < 16
  {
    if n < 10 then 48 + n else 87 + n
  }

  predicate IsHex(b: byte) { 48 <= b <= 57 || 97 <= b <= 102 || 65 <= b <= 70 }

  function HexVal(b: byte): nat
    requires IsHex(b)
  {
    if b <= 57 then b - 48 else if b <= 70 then b - 55 else b - 87
  }

  predicate AllHex(s: seq<byte>) {
    forall i :: 0 <= i < |s| ==> IsHex(s[i])
  }

  function HexItoa(v: nat): (s: seq<byte>)
    ensures s != [] && AllHex(s) && MINUS !in s
  {
    if v < 16 then [HexDigit(v)] else HexItoa(v / 16) + [HexDigit(v % 16)]
  }

  function HexValue(s: seq<byte>): nat
    requires AllHex(s)
  {
    if s == [] then 0 else HexValue(s[..|s| - 1]) * 16 + HexVal(s[|s| - 1])
  }

  lemma {:induction false} HexValueOfItoa(v: nat)
    ensures HexValue(HexItoa(v)) == v
  {
    if v >= 16 {
      HexValueOfItoa(v / 16);
      assert HexItoa(v)[..|HexItoa(v)| - 1] == HexItoa(v / 16);
    }
  }

  /** Hexadecimal digits stand in the usual order, small letters are written, and capitals read as well. */
  lemma HexDigitBehind(v: nat, d: nat, s: seq<byte>)
    requires d < 16 && AllHex(s)
    ensures HexItoa(16 * v + d) == (if v == 0 then [] else HexItoa(v)) + [if d < 10 then 48 + d else 97 + d - 10]
    ensures var c := if d < 10 then 48 + d else 97 + d - 10;
            AllHex(s + [c]) && HexValue(s + [c]) == 16 * HexValue(s) + d
    ensures d >= 10 ==> AllHex(s + [65 + d - 10]) && HexValue(s + [65 + d - 10]) == 16 * HexValue(s) + d
  {
    var c := if d < 10 then 48 + d else 97 + d - 10;
    assert (s + [c])[..|s|] == s && (s + [65 + d % 16])[..|s|] == s;
    if d >= 10 { assert (s + [65 + d - 10])[..|s|] == s; }
  }

  function SkipHex(s: seq<byte>, i: nat): (j: nat)
    requires i <= |s|
    ensures i <= j <= |s| && AllHex(s[i..j])
    decreases |s| - i
  {
    if i < |s| && IsHex(s[i]) then
      var j := SkipHex(s, i + 1);
      assert s[i..j] == [s[i]] + s[i + 1..j];
      j
    else i
  }

  lemma {:induction false} SkipHexTo(s: seq<byte>, i: nat)
    requires i <= |s| && AllHex(s[i..])
    ensures SkipHex(s, i) == |s|
    decreases |s| - i
  {
    if i < |s| {
      assert s[i] == s[i..][0];
      assert s[i + 1..] == s[i..][1..];
      SkipHexTo(s, i + 1);
    }
  }

  const NIL: seq<byte> := [40, 110, 105, 108, 41]   // (nil)

  /** %p. */
  function PrintPointer(v: nat): seq<byte> {
    if v == 0 then NIL else [48, 120] + HexItoa(v)
  }

  /** safe_strtoull_hex: strtoull with a base of 16, and the same checks as for base 10. */
  function StrToULLHex(s: seq<byte>): Option<u64> {
    var i := SkipSpaces(s, 0);
    var negative := i < |s| && s[i] == MINUS;
    var signed := if i < |s| && (s[i] == MINUS || s[i] == PLUS) then i + 1 else i;
    var start :=
      if signed + 2 < |s| && s[signed] == 48 && (s[signed + 1] == 120 || s[signed + 1] == 88) && IsHex(s[signed + 2])
      then signed + 2 else signed;
    var end := SkipHex(s, start);
    if start == end then None
    else
      var v := HexValue(s[start..end]);
      if v >= TWO64 then None
      else if end < |s| && !IsSpace(s[end]) then None
      else
        var ull := if negative && v > 0 then TWO64 - v else v;
        if ull >= TWO63 && MINUS in s then None else Some(ull)
  }

  /** s is made of white space, a sign or none, 0x or not, hexadecimal digits, and white space or nothing behind. */
  predicate SplitsHex(s: seq<byte>, spaces: seq<byte>, sign: seq<byte>, prefix: seq<byte>, digits: seq<byte>,
                      rest: seq<byte>) {
    && s == spaces + sign + prefix + digits + rest
    && (forall i :: 0 <= i < |spaces| ==> spaces[i] in {9, 10, 11, 12, 13, 32})
    && sign in {[], [MINUS], [PLUS]} && prefix in {[], [48, 120], [48, 88]} && digits != [] && AllHex(digits)
    && (rest == [] || rest[0] in {9, 10, 11, 12, 13, 32})
  }

  lemma TwoParts(s: seq<byte>, i: nat, j: nat)
    requires i <= j <= |s|
    ensures s[i..] == s[i..j] + s[j..]
  {
  }

  lemma FiveParts(s: seq<byte>, i: nat, j: nat, k: nat, l: nat)
    requires i <= j <= k <= l <= |s|
    ensures s == s[..i] + s[i..j] + s[j..k] + s[k..l] + s[l..]
  {
    TwoParts(s, 0, i);
    TwoParts(s, i, j);
    TwoParts(s, j, k);
    TwoParts(s, k, l);
    Regroup(s[..i], s[i..j], s[j..k], s[k..l], s[l..]);
  }

  lemma Regroup(a: seq<byte>, b: seq<byte>, c: seq<byte>, d: seq<byte>, e: seq<byte>)
    ensures a + (b + (c + (d + e))) == a + b + c + d + e
  {
  }

  /** Nothing else is taken for a pointer. */
  lemma StrToULLHexSplits(s: seq<byte>)
    returns (spaces: seq<byte>, sign: seq<byte>, prefix: seq<byte>, digits: seq<byte>, rest: seq<byte>)
    requires StrToULLHex(s).Some?
    ensures SplitsHex(s, spaces, sign, prefix, digits, rest)
  {
    var i := SkipSpaces(s, 0);
    var signed := if i < |s| && (s[i] == MINUS || s[i] == PLUS) then i + 1 else i;
    var start :=
      if signed + 2 < |s| && s[signed] == 48 && (s[signed + 1] == 120 || s[signed + 1] == 88) && IsHex(s[signed + 2])
      then signed + 2 else signed;
    var end := SkipHex(s, start);
    SpacesSkipped(s, 0);
    spaces, sign, prefix, digits, rest := s[..i], s[i..signed], s[signed..start], s[start..end], s[end..];
    HexParts(s, i, signed, start, end);
  }

  lemma HexParts(s: seq<byte>, i: nat, signed: nat, start: nat, end: nat)
    requires i <= signed <= start < end <= |s| && (forall k :: 0 <= k < i ==> IsSpace(s[k]))
    requires signed == i || (signed == i + 1 && s[i] in {MINUS, PLUS})
    requires start == signed || (start == signed + 2 && s[signed] == 48 && s[signed + 1] in {120, 88})
    requires AllHex(s[start..end]) && (end < |s| ==> IsSpace(s[end]))
    ensures SplitsHex(s, s[..i], s[i..signed], s[signed..start], s[start..end], s[end..])
  {
    FiveParts(s, i, signed, start, end);
    assert signed > i ==> s[i..signed] == [s[i]];
    assert start > signed ==> s[signed..start] == [s[signed], s[signed + 1]];
    assert end < |s| ==> s[end..][0] == s[end];
  }

  /** A pointer is read back unless it is null. */
  lemma ReadPointer(v: nat)
    requires v < TWO64
    ensures StrToULLHex(PrintPointer(v)) == if v == 0 then None else Some(v)
    ensures v > 0 ==> PrintPointer(v)[..2] == [48, 120] && PrintPointer(v)[2..] == HexItoa(v)
  {
    if v > 0 {
      var s, h := PrintPointer(v), HexItoa(v);
      assert s[2..] == h && s[2..|s|] == h && s[2] == h[0];
      SkipHexTo(s, 2);
      HexValueOfItoa(v);
      assert MINUS !in s;
    }
  }

  // ----- Lines -----

  datatype Key =
    | MmapOldbase | Maxbytes | ChunkSize | ItemSizeMax | SlabChunkSizeMax | SlabPageSize | SlabConfig | UseCas
    | SlabReassign | CurrentCas | OldestCas | OldestLive | LoggerGid | CurrentTime | StopTime | ProcessStarted
    | Hashpower | Unknown

  datatype Line = Line(key: Key, val: seq<byte>)

  const TRUE: seq<byte> := [116, 114, 117, 101]
  const FALSE: seq<byte> := [102, 97, 108, 115, 101]
  const RESTART_REQUIRED_META: nat := 17

  /** Settings that must agree. */
  datatype Settings = Settings(
    maxbytes: u64, chunkSize: i32, itemSizeMax: i32, slabChunkSizeMax: i32, slabPageSize: i32,
    slabConfig: seq<byte>, useCas: bool, slabReassign: bool)

  /** State of a running server that is saved. */
  datatype Live = Live(
    mmapBase: u64, casId: u64, oldestCas: u64, oldestLive: u32, loggerGid: u64, hashpower: u32,
    processStarted: u64, currentTime: u32)

  /** What loading fills in: some of it state of the starting server, some of it for the rest of the start. */
  datatype Loaded = Loaded(
    oldBase: int, casId: int, oldestCas: int, oldestLive: int, loggerGid: int, hashpowerInit: int,
    processStarted: int, currentTime: int, timeDelta: int)

  function BoolText(b: bool): seq<byte> { if b then TRUE else FALSE }

  /** The number that the stopping server writes for a part of its state.  Asking for the cas id hands one out. */
  function SavedNumber(r: Live, stopTime: u64, key: Key): nat {
    match key
    case MmapOldbase => r.mmapBase
    case CurrentCas => (r.casId + 1) % TWO64
    case OldestCas => r.oldestCas
    case OldestLive => r.oldestLive
    case LoggerGid => r.loggerGid
    case CurrentTime => r.currentTime
    case StopTime => stopTime
    case ProcessStarted => r.processStarted
    case Hashpower => r.hashpower
    case _ => 0
  }

  /** What the stopping server writes for a key. */
  function Text(c: Settings, r: Live, stopTime: u64, key: Key): seq<byte> {
    match key
    case Maxbytes => Itoa(c.maxbytes)
    case ChunkSize => SItoa(c.chunkSize)
    case ItemSizeMax => SItoa(c.itemSizeMax)
    case SlabChunkSizeMax => SItoa(c.slabChunkSizeMax)
    case SlabPageSize => SItoa(c.slabPageSize)
    case SlabConfig => c.slabConfig
    case UseCas => BoolText(c.useCas)
    case SlabReassign => BoolText(c.slabReassign)
    case MmapOldbase => PrintPointer(r.mmapBase)
    case _ => Itoa(SavedNumber(r, stopTime, key))
  }

  const SETTING_KEYS: seq<Key> :=
    [SlabConfig, Maxbytes, ChunkSize, ItemSizeMax, SlabChunkSizeMax, SlabPageSize, UseCas, SlabReassign]

  const STATE_KEYS: seq<Key> :=
    [CurrentTime, ProcessStarted, StopTime, CurrentCas, OldestCas, LoggerGid, Hashpower, OldestLive, MmapOldbase]

  const KEYS: seq<Key> := SETTING_KEYS + STATE_KEYS

  /** The lines for some keys. */
  function LinesFor(c: Settings, r: Live, stopTime: u64, keys: seq<Key>): (lines: seq<Line>)
    ensures |lines| == |keys|
    ensures forall i :: 0 <= i < |keys| ==> lines[i] == Line(keys[i], Text(c, r, stopTime, keys[i]))
  {
    seq(|keys|, i requires 0 <= i < |keys| => Line(keys[i], Text(c, r, stopTime, keys[i])))
  }

  function Saved(c: Settings, r: Live, stopTime: u64): seq<Line> {
    LinesFor(c, r, stopTime, KEYS)
  }

  /** What stands behind each key: settings. */
  lemma SettingTexts(c: Settings, r: Live, t: u64)
    ensures Text(c, r, t, SlabConfig) == c.slabConfig && Text(c, r, t, Maxbytes) == Itoa(c.maxbytes)
    ensures Text(c, r, t, ChunkSize) == SItoa(c.chunkSize) && Text(c, r, t, ItemSizeMax) == SItoa(c.itemSizeMax)
    ensures Text(c, r, t, SlabChunkSizeMax) == SItoa(c.slabChunkSizeMax)
    ensures Text(c, r, t, SlabPageSize) == SItoa(c.slabPageSize)
    ensures Text(c, r, t, UseCas) == if c.useCas then TRUE else FALSE
    ensures Text(c, r, t, SlabReassign) == if c.slabReassign then TRUE else FALSE
  {
  }

  /** And state: each key has its own number. */
  lemma StateText(c: Settings, r: Live, t: u64, key: Key)
    requires IsState(key)
    ensures Text(c, r, t, key) == if key == MmapOldbase then PrintPointer(r.mmapBase) else Itoa(SavedNumber(r, t, key))
  {
  }

  lemma StateNumbers(r: Live, t: u64)
    ensures SavedNumber(r, t, CurrentTime) == r.currentTime && SavedNumber(r, t, ProcessStarted) == r.processStarted
    ensures SavedNumber(r, t, StopTime) == t && SavedNumber(r, t, CurrentCas) == (r.casId + 1) % TWO64
    ensures SavedNumber(r, t, OldestCas) == r.oldestCas && SavedNumber(r, t, LoggerGid) == r.loggerGid
    ensures SavedNumber(r, t, Hashpower) == r.hashpower && SavedNumber(r, t, OldestLive) == r.oldestLive
    ensures SavedNumber(r, t, MmapOldbase) == r.mmapBase
  {
  }

  lemma LinesForConcat(c: Settings, r: Live, stopTime: u64, a: seq<Key>, b: seq<Key>)
    ensures LinesFor(c, r, stopTime, a + b) == LinesFor(c, r, stopTime, a) + LinesFor(c, r, stopTime, b)
  {
  }

  /** The number in a line that carries a part of the state. */
  function Number(l: Line): Option<int> {
    match l.key
    case MmapOldbase => StrToULLHex(l.val)
    case StopTime => StrToLL(l.val)
    case OldestLive => StrToUL(l.val)
    case CurrentTime => StrToUL(l.val)
    case Hashpower => StrToUL(l.val)
    case _ => StrToULL(l.val)
  }

  /** Whether the starting server can live with a line, at wall clock time now. */
  predicate LineOk(c: Settings, l: Line, now: int) {
    match l.key
    case Maxbytes => StrToLL(l.val).Some? && c.maxbytes == StrToLL(l.val).value % TWO64
    case ChunkSize => StrToL(l.val) == Some(c.chunkSize)
    case ItemSizeMax => StrToL(l.val) == Some(c.itemSizeMax)
    case SlabChunkSizeMax => StrToL(l.val) == Some(c.slabChunkSizeMax)
    case SlabPageSize => StrToL(l.val) == Some(c.slabPageSize)
    case SlabConfig => l.val == c.slabConfig
    case UseCas => l.val == BoolText(c.useCas)
    case SlabReassign => l.val == BoolText(c.slabReassign)
    case StopTime => Number(l).Some? && now - Number(l).value > 0
    case Unknown => true
    case _ => Number(l).Some?
  }

  /** A number must be the one that is set, all of its 64 or the last of its 32 bits; a text must be the same; a part
      of the state must be a number, and the time of the stop in the past. */
  lemma LineMeaning(c: Settings, l: Line, now: int)
    ensures l.key == Maxbytes ==>
              (LineOk(c, l, now) <==> StrToLL(l.val).Some? && (StrToLL(l.val).value - c.maxbytes) % TWO64 == 0)
    ensures l.key in {ChunkSize, ItemSizeMax, SlabChunkSizeMax, SlabPageSize} ==>
              var n := if l.key == ChunkSize then c.chunkSize else if l.key == ItemSizeMax then c.itemSizeMax
                       else if l.key == SlabChunkSizeMax then c.slabChunkSizeMax else c.slabPageSize;
              (LineOk(c, l, now) <==> StrToLL(l.val).Some? && (StrToLL(l.val).value - n) % TWO32 == 0)
    ensures l.key == SlabConfig ==> (LineOk(c, l, now) <==> l.val == c.slabConfig)
    ensures l.key == UseCas ==> (LineOk(c, l, now) <==> l.val == if c.useCas then TRUE else FALSE)
    ensures l.key == SlabReassign ==> (LineOk(c, l, now) <==> l.val == if c.slabReassign then TRUE else FALSE)
    ensures l.key == StopTime ==> (LineOk(c, l, now) <==> StrToLL(l.val).Some? && StrToLL(l.val).value < now)
    ensures l.key == MmapOldbase ==> (LineOk(c, l, now) <==> StrToULLHex(l.val).Some?)
    ensures l.key in {CurrentCas, OldestCas, OldestLive, LoggerGid, CurrentTime, ProcessStarted, Hashpower} ==>
              (LineOk(c, l, now) <==> StrToULL(l.val).Some?)
    ensures l.key == Unknown ==> LineOk(c, l, now)
  {
    if l.key in {ChunkSize, ItemSizeMax, SlabChunkSizeMax, SlabPageSize} && StrToLL(l.val).Some? {
      var n := if l.key == ChunkSize then c.chunkSize else if l.key == ItemSizeMax then c.itemSizeMax
               else if l.key == SlabChunkSizeMax then c.slabChunkSizeMax else c.slabPageSize;
      SameLowBits(StrToLL(l.val).value, n);
    }
  }

  lemma SameLowBits(v: int, n: i32)
    ensures (v + TWO31) % TWO32 - TWO31 == n <==> (v - n) % TWO32 == 0
  {
  }

  /** Lines with a known key among the first n. */
  function KnownTo(lines: seq<Line>, n: nat): nat
    requires n <= |lines|
  {
    if n == 0 then 0 else KnownTo(lines, n - 1) + if lines[n - 1].key.Unknown? then 0 else 1
  }

  function Known(lines: seq<Line>): nat { KnownTo(lines, |lines|) }

  lemma {:induction false} KnownFirst(a: seq<Line>, b: seq<Line>, n: nat)
    requires a <= b && n <= |a|
    ensures KnownTo(b, n) == KnownTo(a, n)
  {
    if n > 0 { KnownFirst(a, b, n - 1); }
  }

  lemma KnownSnoc(lines: seq<Line>, l: Line)
    ensures Known(lines + [l]) == Known(lines) + if l.key.Unknown? then 0 else 1
  {
    KnownFirst(lines, lines + [l], |lines|);
  }

  /** The verdict: every line is fine, and there are enough of them. */
  predicate Accepted(c: Settings, lines: seq<Line>, now: int) {
    Known(lines) >= RESTART_REQUIRED_META && forall i :: 0 <= i < |lines| ==> LineOk(c, lines[i], now)
  }

  // ----- The verdict does not depend on the order of the lines -----

  lemma {:induction false} KnownConcat(a: seq<Line>, b: seq<Line>)
    ensures Known(a + b) == Known(a) + Known(b)
  {
    if b == [] {
      assert a + b == a;
    } else {
      var n := |b| - 1;
      KnownConcat(a, b[..n]);
      KnownSnoc(a + b[..n], b[n]);
      KnownSnoc(b[..n], b[n]);
      assert a + b[..n] + [b[n]] == a + b && b[..n] + [b[n]] == b;
    }
  }

  lemma Cancel(a: multiset<Line>, b: multiset<Line>, c: multiset<Line>)
    requires a + c == b + c
    ensures a == b
  {
    assert a == (a + c) - c && b == (b + c) - c;
  }

  lemma {:induction false} KnownPermuted(a: seq<Line>, b: seq<Line>)
    requires multiset(a) == multiset(b)
    ensures Known(a) == Known(b)
    decreases |a|
  {
    assert |a| == |multiset(a)| == |multiset(b)| == |b|;
    if a != [] {
      var n := |a| - 1;
      var x := a[n];
      assert a == a[..n] + [x];
      KnownSnoc(a[..n], x);
      assert x in multiset(a);
      var i :| 0 <= i < |b| && b[i] == x;
      assert b == b[..i] + [x] + b[i + 1..];
      assert multiset(a) == multiset(a[..n]) + multiset{x};
      assert multiset(b) == multiset(b[..i] + b[i + 1..]) + multiset{x};
      Cancel(multiset(a[..n]), multiset(b[..i] + b[i + 1..]), multiset{x});
      KnownPermuted(a[..n], b[..i] + b[i + 1..]);
      KnownConcat(b[..i], b[i + 1..]);
      KnownConcat(b[..i] + [x], b[i + 1..]);
      KnownSnoc(b[..i], x);
    }
  }

  lemma OrderDoesNotMatter(c: Settings, a: seq<Line>, b: seq<Line>, now: int)
    requires multiset(a) == multiset(b)
    ensures Accepted(c, a, now) == Accepted(c, b, now)
  {
    KnownPermuted(a, b);
    forall l | l in multiset(a) ensures l in a && l in b { assert l in multiset(b); }
    forall i | 0 <= i < |a| ensures a[i] in multiset(a) && a[i] in b { }
    forall i | 0 <= i < |b| ensures b[i] in multiset(b) && b[i] in multiset(a) && b[i] in a { }
  }

  // ----- Enough distinct keys are all keys -----

  function Index(key: Key): nat {
    match key
    case MmapOldbase => 0
    case Maxbytes => 1
    case ChunkSize => 2
    case ItemSizeMax => 3
    case SlabChunkSizeMax => 4
    case SlabPageSize => 5
    case SlabConfig => 6
    case UseCas => 7
    case SlabReassign => 8
    case CurrentCas => 9
    case OldestCas => 10
    case OldestLive => 11
    case LoggerGid => 12
    case CurrentTime => 13
    case StopTime => 14
    case ProcessStarted => 15
    case Hashpower => 16
    case Unknown => 17
  }

  ghost function Below(n: nat): (s: set<nat>)
    ensures |s| == n && forall i: nat :: i in s <==> i < n
  {
    if n == 0 then {} else Below(n - 1) + {n - 1}
  }

  lemma {:induction false} SubsetSize(a: set<nat>, b: set<nat>)
    requires a <= b
    ensures |a| <= |b|
  {
    if a != {} {
      var x :| x in a;
      SubsetSize(a - {x}, b - {x});
    }
  }

  lemma IndexInjective(a: Key, b: Key)
    ensures Index(a) == Index(b) <==> a == b
  {
  }

  lemma IndexReaches(i: nat) returns (key: Key)
    requires i < 17
    ensures Index(key) == i
  {
    key := [MmapOldbase, Maxbytes, ChunkSize, ItemSizeMax, SlabChunkSizeMax, SlabPageSize, SlabConfig, UseCas,
            SlabReassign, CurrentCas, OldestCas, OldestLive, LoggerGid, CurrentTime, StopTime, ProcessStarted,
            Hashpower][i];
  }

  /** The known keys, by their indices. */
  ghost function Indices(lines: seq<Line>): (s: set<nat>)
    ensures s <= Below(17)
  {
    if lines == [] then {}
    else
      var last := lines[|lines| - 1].key;
      Indices(lines[..|lines| - 1]) + if last.Unknown? then {} else {Index(last)}
  }

  ghost predicate HasKey(lines: seq<Line>, key: Key) {
    exists i :: 0 <= i < |lines| && lines[i].key == key
  }

  lemma HasKeyLast(lines: seq<Line>, key: Key)
    requires lines != []
    ensures HasKey(lines, key) <==> HasKey(lines[..|lines| - 1], key) || lines[|lines| - 1].key == key
  {
    var n := |lines| - 1;
    if HasKey(lines, key) && lines[n].key != key {
      var i :| 0 <= i < |lines| && lines[i].key == key;
      assert lines[..n][i].key == key;
    }
    if HasKey(lines[..n], key) {
      var i :| 0 <= i < n && lines[..n][i].key == key;
      assert lines[i].key == key;
    }
  }

  lemma {:induction false} IndicesAre(lines: seq<Line>, key: Key)
    requires !key.Unknown?
    ensures Index(key) in Indices(lines) <==> HasKey(lines, key)
  {
    if lines != [] {
      var last := lines[|lines| - 1].key;
      IndicesAre(lines[..|lines| - 1], key);
      HasKeyLast(lines, key);
      IndexInjective(key, last);
    }
  }

  ghost predicate DistinctKeys(lines: seq<Line>) {
    forall i, j :: 0 <= i < j < |lines| && !lines[i].key.Unknown? ==> lines[i].key != lines[j].key
  }

  lemma DistinctLast(lines: seq<Line>)
    requires lines != []
    ensures var n := |lines| - 1;
      DistinctKeys(lines) <==> DistinctKeys(lines[..n]) && (lines[n].key.Unknown? || !HasKey(lines[..n], lines[n].key))
  {
    var n := |lines| - 1;
    if DistinctKeys(lines) && HasKey(lines[..n], lines[n].key) {
      var i :| 0 <= i < n && lines[..n][i].key == lines[n].key;
      assert lines[i].key == lines[n].key;
    }
    if DistinctKeys(lines[..n]) && (lines[n].key.Unknown? || !HasKey(lines[..n], lines[n].key)) {
      forall i, j | 0 <= i < j < |lines| && !lines[i].key.Unknown? ensures lines[i].key != lines[j].key {
        assert lines[..n][i] == lines[i];
        if j < n { assert lines[..n][j] == lines[j]; }
      }
    }
  }

  /** Whether the last line brings a key that was not there before. */
  ghost predicate NewLast(lines: seq<Line>)
    requires lines != []
  {
    var n := |lines| - 1;
    !lines[n].key.Unknown? && !HasKey(lines[..n], lines[n].key)
  }

  lemma AddedSize(s: set<nat>, x: nat)
    ensures |s + {x}| == |s| + if x in s then 0 else 1
  {
    if x in s { assert s + {x} == s; }
  }

  lemma IndicesLast(lines: seq<Line>)
    requires lines != []
    ensures |Indices(lines)| == |Indices(lines[..|lines| - 1])| + if NewLast(lines) then 1 else 0
  {
    var n := |lines| - 1;
    var before, key := Indices(lines[..n]), lines[n].key;
    assert Indices(lines) == before + if key.Unknown? then {} else {Index(key)};
    if key.Unknown? {
      assert before + {} == before;
    } else {
      IndicesAre(lines[..n], key);
      AddedSize(before, Index(key));
    }
  }

  lemma KnownLast(lines: seq<Line>)
    requires lines != []
    ensures Known(lines) == Known(lines[..|lines| - 1]) + if lines[|lines| - 1].key.Unknown? then 0 else 1
  {
    KnownFirst(lines[..|lines| - 1], lines, |lines| - 1);
  }

  /** There are as many different keys as lines with a known key exactly when no key is repeated. */
  lemma {:induction false} IndicesCount(lines: seq<Line>)
    ensures |Indices(lines)| <= Known(lines)
    ensures |Indices(lines)| == Known(lines) <==> DistinctKeys(lines)
  {
    if lines != [] {
      IndicesCount(lines[..|lines| - 1]);
      DistinctLast(lines);
      IndicesLast(lines);
      KnownLast(lines);
    }
  }

  ghost predicate HasAll(lines: seq<Line>) {
    forall key: Key {:trigger HasKey(lines, key)} :: !key.Unknown? ==> HasKey(lines, key)
  }

  /** All keys are there exactly when there are 17 different ones. */
  lemma HasAllIff(lines: seq<Line>)
    ensures HasAll(lines) <==> |Indices(lines)| == RESTART_REQUIRED_META
  {
    if HasAll(lines) {
      AllIndices(lines);
    } else {
      var key: Key :| !key.Unknown? && !HasKey(lines, key);
      IndicesAre(lines, key);
      SubsetSize(Indices(lines), Below(17) - {Index(key)});
    }
  }

  lemma AllIndices(lines: seq<Line>)
    requires HasAll(lines)
    ensures Indices(lines) == Below(17)
  {
    forall i: nat | i < 17 ensures i in Indices(lines) {
      var key := IndexReaches(i);
      IndicesAre(lines, key);
    }
  }

  /** Accepted metadata repeats no key exactly when it has 17 lines with a known key and all the keys. */
  lemma AcceptedDistinctIff(c: Settings, lines: seq<Line>, now: int)
    requires Accepted(c, lines, now)
    ensures DistinctKeys(lines) <==> Known(lines) == RESTART_REQUIRED_META && HasAll(lines)
  {
    IndicesCount(lines);
    HasAllIff(lines);
    SubsetSize(Indices(lines), Below(17));
  }

  /** Repeated keys count as well: metadata with one key only can be accepted. */
  lemma RepeatedKeyAccepted(c: Settings, now: int) returns (lines: seq<Line>)
    ensures Accepted(c, lines, now) && forall i :: 0 <= i < |lines| ==> lines[i].key == SlabConfig
  {
    lines := [];
    for n := 0 to 17
      invariant |lines| == n == Known(lines)
      invariant forall i :: 0 <= i < n ==> lines[i] == Line(SlabConfig, c.slabConfig)
    {
      KnownSnoc(lines, Line(SlabConfig, c.slabConfig));
      lines := lines + [Line(SlabConfig, c.slabConfig)];
    }
  }

  // ----- Loading -----

  predicate IsState(key: Key) {
    && !key.Maxbytes? && !key.ChunkSize? && !key.ItemSizeMax? && !key.SlabChunkSizeMax? && !key.SlabPageSize?
    && !key.SlabConfig? && !key.UseCas? && !key.SlabReassign? && !key.Unknown?
  }

  /** The part of what is loaded that a key stands for. */
  function Field(r: Loaded, key: Key): int
    requires IsState(key)
  {
    match key
    case MmapOldbase => r.oldBase
    case CurrentCas => r.casId
    case OldestCas => r.oldestCas
    case OldestLive => r.oldestLive
    case LoggerGid => r.loggerGid
    case CurrentTime => r.currentTime
    case StopTime => r.timeDelta
    case ProcessStarted => r.processStarted
    case Hashpower => r.hashpowerInit
  }

  function WithField(r: Loaded, key: Key, v: int): Loaded
    requires IsState(key)
  {
    match key
    case MmapOldbase => r.(oldBase := v)
    case CurrentCas => r.(casId := v)
    case OldestCas => r.(oldestCas := v)
    case OldestLive => r.(oldestLive := v)
    case LoggerGid => r.(loggerGid := v)
    case CurrentTime => r.(currentTime := v)
    case StopTime => r.(timeDelta := v)
    case ProcessStarted => r.(processStarted := v)
    case Hashpower => r.(hashpowerInit := v)
  }

  lemma FieldOfWith(r: Loaded, key: Key, v: int, other: Key)
    requires IsState(key) && IsState(other)
    ensures Field(WithField(r, key, v), other) == if other == key then v else Field(r, other)
  {
  }

  /** What a line does; one that cannot be parsed changes nothing, except for the old base. */
  function Apply(r: Loaded, l: Line, now: int): Loaded {
    if !IsState(l.key) then r
    else if Number(l).Some? then
      WithField(r, l.key, if l.key.StopTime? then now - Number(l).value else Number(l).value)
    else if l.key.MmapOldbase? then r.(oldBase := 0)
    else r
  }

  /** What the first n lines do, one after the other. */
  function ApplyTo(r: Loaded, lines: seq<Line>, n: nat, now: int): Loaded
    requires n <= |lines|
  {
    if n == 0 then r else Apply(ApplyTo(r, lines, n - 1, now), lines[n - 1], now)
  }

  /** A line with a setting, an unknown key or no number in it leaves what is known as it is, except that an old base
      that cannot be read is 0. */
  lemma ApplyKeeps(r: Loaded, l: Line, now: int)
    ensures !IsState(l.key) ==> Apply(r, l, now) == r
    ensures l.key in {CurrentCas, OldestCas, LoggerGid, ProcessStarted} && StrToULL(l.val).None? ==>
              Apply(r, l, now) == r
    ensures l.key in {OldestLive, CurrentTime, Hashpower} && StrToULL(l.val).None? ==> Apply(r, l, now) == r
    ensures l.key == StopTime && StrToLL(l.val).None? ==> Apply(r, l, now) == r
    ensures l.key == MmapOldbase && StrToULLHex(l.val).None? ==> Apply(r, l, now) == r.(oldBase := 0)
  {
  }

  function ApplyAll(r: Loaded, lines: seq<Line>, now: int): Loaded {
    ApplyTo(r, lines, |lines|, now)
  }

  lemma OtherField(r: Loaded, l: Line, now: int, key: Key)
    requires IsState(key) && l.key != key
    ensures Field(Apply(r, l, now), key) == Field(r, key)
  {
    if IsState(l.key) && Number(l).Some? {
      FieldOfWith(r, l.key, if l.key.StopTime? then now - Number(l).value else Number(l).value, key);
    }
  }

  lemma OwnField(r: Loaded, l: Line, now: int)
    requires IsState(l.key) && Number(l).Some?
    ensures Field(Apply(r, l, now), l.key) == if l.key.StopTime? then now - Number(l).value else Number(l).value
  {
    FieldOfWith(r, l.key, if l.key.StopTime? then now - Number(l).value else Number(l).value, l.key);
  }

  /** The last line with a key decides. */
  lemma {:induction false} FieldAfter(r: Loaded, lines: seq<Line>, n: nat, now: int, l: Line)
    requires n <= |lines| && IsState(l.key) && Number(l).Some?
    requires l in lines[..n] && forall i :: 0 <= i < n && lines[i].key == l.key ==> lines[i] == l
    ensures Field(ApplyTo(r, lines, n, now), l.key) ==
            if l.key.StopTime? then now - Number(l).value else Number(l).value
  {
    var before := ApplyTo(r, lines, n - 1, now);
    if lines[n - 1].key != l.key {
      assert l in lines[..n - 1] by {
        var i :| 0 <= i < n && lines[i] == l;
        assert lines[..n - 1][i] == l;
      }
      FieldAfter(r, lines, n - 1, now, l);
      OtherField(before, lines[n - 1], now, l.key);
    } else {
      OwnField(before, l, now);
    }
  }

  // ----- The round trip -----

  /** What the saving and the loading side must fulfil: a memory limit below 2^63, a mapping that is not null,
      and a clock that has moved on. */
  predicate Restorable(c: Settings, r: Live, stopTime: nat, now: int) {
    c.maxbytes < TWO63 && r.mmapBase != 0 && stopTime < now
  }

  /** The part of that which one key is about, and of what the two sides must have in common. */
  predicate RestorableKey(c: Settings, d: Settings, r: Live, stopTime: nat, now: int, key: Key) {
    match key
    case Maxbytes => c.maxbytes < TWO63 && d.maxbytes == c.maxbytes
    case ChunkSize => d.chunkSize == c.chunkSize
    case ItemSizeMax => d.itemSizeMax == c.itemSizeMax
    case SlabChunkSizeMax => d.slabChunkSizeMax == c.slabChunkSizeMax
    case SlabPageSize => d.slabPageSize == c.slabPageSize
    case SlabConfig => d.slabConfig == c.slabConfig
    case UseCas => d.useCas == c.useCas
    case SlabReassign => d.slabReassign == c.slabReassign
    case MmapOldbase => r.mmapBase != 0
    case StopTime => stopTime < now
    case _ => true
  }

  /** What is known after a restart: one cas id was spent on saving, and the time in between is known. */
  function Restored(r: Live, stopTime: nat, now: int): Loaded {
    Loaded(r.mmapBase, (r.casId + 1) % TWO64, r.oldestCas, r.oldestLive, r.loggerGid, r.hashpower,
           r.processStarted, r.currentTime, now - stopTime)
  }

  lemma ReadInt(v: i32)
    ensures StrToL(SItoa(v)) == Some(v)
  {
    ReadSigned(v);
  }

  lemma WideNumber(l: Line, v: u64)
    requires l.key in {CurrentCas, OldestCas, LoggerGid, ProcessStarted} && l.val == Itoa(v)
    ensures Number(l) == Some(v)
  {
    ReadUnsigned(v);
  }

  lemma NarrowNumber(l: Line, v: u32)
    requires l.key in {OldestLive, CurrentTime, Hashpower} && l.val == Itoa(v)
    ensures Number(l) == Some(v)
  {
    ReadUnsigned(v);
    assert v % TWO32 == v;
  }

  lemma PlainNumber(l: Line, v: u64)
    requires IsState(l.key) && !l.key.MmapOldbase? && l.val == Itoa(v)
    requires l.key.StopTime? ==> v < TWO63
    requires l.key in {OldestLive, CurrentTime, Hashpower} ==> v < TWO32
    ensures Number(l) == Some(v)
  {
    if l.key.StopTime? {
      ReadNatural(v);
    } else if l.key in {OldestLive, CurrentTime, Hashpower} {
      NarrowNumber(l, v);
    } else {
      WideNumber(l, v);
    }
  }

  lemma NumberSaved(c: Settings, r: Live, stopTime: u64, key: Key)
    requires stopTime < TWO63 && IsState(key)
    ensures Number(Line(key, Text(c, r, stopTime, key))) ==
            if key.MmapOldbase? && r.mmapBase == 0 then None else Some(SavedNumber(r, stopTime, key))
  {
    if key.MmapOldbase? {
      ReadPointer(r.mmapBase);
    } else {
      var v: u64 := SavedNumber(r, stopTime, key);
      assert Text(c, r, stopTime, key) == Itoa(v);
      PlainNumber(Line(key, Itoa(v)), v);
    }
  }

  lemma SavedSettingOk(c: Settings, d: Settings, r: Live, stopTime: u64, now: int, key: Key)
    requires !IsState(key) && !key.Unknown?
    ensures LineOk(d, Line(key, Text(c, r, stopTime, key)), now) <==> RestorableKey(c, d, r, stopTime, now, key)
  {
    match key
    case Maxbytes => ReadNatural(c.maxbytes);
    case ChunkSize => ReadInt(c.chunkSize);
    case ItemSizeMax => ReadInt(c.itemSizeMax);
    case SlabChunkSizeMax => ReadInt(c.slabChunkSizeMax);
    case SlabPageSize => ReadInt(c.slabPageSize);
    case SlabConfig =>
    case UseCas => assert TRUE[0] != FALSE[0];
    case SlabReassign => assert TRUE[0] != FALSE[0];
  }

  lemma SavedLineOk(c: Settings, d: Settings, r: Live, stopTime: u64, now: int, key: Key)
    requires stopTime < TWO63 && !key.Unknown?
    ensures LineOk(d, Line(key, Text(c, r, stopTime, key)), now) <==> RestorableKey(c, d, r, stopTime, now, key)
  {
    if !IsState(key) {
      SavedSettingOk(c, d, r, stopTime, now, key);
    } else {
      NumberSaved(c, r, stopTime, key);
    }
  }

  lemma FieldRestored(r: Live, stopTime: u64, now: int, key: Key)
    requires IsState(key)
    ensures Field(Restored(r, stopTime, now), key) ==
            if key.StopTime? then now - SavedNumber(r, stopTime, key) else SavedNumber(r, stopTime, key)
  {
  }

  /** Where a key is saved. */
  function Position(key: Key): (i: nat)
    requires !key.Unknown?
    ensures i < 17 && KEYS[i] == key
  {
    match key
    case SlabConfig => 0
    case Maxbytes => 1
    case ChunkSize => 2
    case ItemSizeMax => 3
    case SlabChunkSizeMax => 4
    case SlabPageSize => 5
    case UseCas => 6
    case SlabReassign => 7
    case CurrentTime => 8
    case ProcessStarted => 9
    case StopTime => 10
    case CurrentCas => 11
    case OldestCas => 12
    case LoggerGid => 13
    case Hashpower => 14
    case OldestLive => 15
    case MmapOldbase => 16
  }

  lemma {:induction false} AllKnown(lines: seq<Line>)
    requires forall i :: 0 <= i < |lines| ==> !lines[i].key.Unknown?
    ensures Known(lines) == |lines|
  {
    if lines != [] {
      AllKnown(lines[..|lines| - 1]);
      KnownFirst(lines[..|lines| - 1], lines, |lines| - 1);
    }
  }

  lemma SavedHas(c: Settings, r: Live, stopTime: u64, key: Key)
    requires !key.Unknown?
    ensures Line(key, Text(c, r, stopTime, key)) in Saved(c, r, stopTime)
  {
    var saved := Saved(c, r, stopTime);
    assert saved[Position(key)] == Line(key, Text(c, r, stopTime, key));
  }

  lemma SavedOnly(c: Settings, r: Live, stopTime: u64, l: Line)
    requires l in Saved(c, r, stopTime)
    ensures l.val == Text(c, r, stopTime, l.key)
  {
    var saved := Saved(c, r, stopTime);
    var j :| 0 <= j < |saved| && saved[j] == l;
  }

  /** In whatever order the saved lines come, each known key has its line, and no other. */
  lemma SavedLines(c: Settings, r: Live, stopTime: u64, lines: seq<Line>, key: Key)
    requires multiset(lines) == multiset(Saved(c, r, stopTime)) && !key.Unknown?
    ensures Line(key, Text(c, r, stopTime, key)) in lines
    ensures forall i :: 0 <= i < |lines| && lines[i].key == key ==> lines[i] == Line(key, Text(c, r, stopTime, key))
  {
    var saved := Saved(c, r, stopTime);
    SavedHas(c, r, stopTime, key);
    assert Line(key, Text(c, r, stopTime, key)) in multiset(saved);
    assert Line(key, Text(c, r, stopTime, key)) in multiset(lines);
    forall i | 0 <= i < |lines| && lines[i].key == key ensures lines[i] == Line(key, Text(c, r, stopTime, key)) {
      assert lines[i] in multiset(lines);
      assert lines[i] in multiset(saved);
      SavedOnly(c, r, stopTime, lines[i]);
    }
  }

  /** What a server with settings c saved is accepted by one with settings d exactly when it is restorable and the
      settings are the same. */
  lemma SavedVerdict(c: Settings, d: Settings, r: Live, stopTime: u64, now: int)
    requires stopTime < TWO63
    ensures Accepted(d, Saved(c, r, stopTime), now) <==> Restorable(c, r, stopTime, now) && c == d
  {
    var saved := Saved(c, r, stopTime);
    forall i | 0 <= i < |saved| ensures !saved[i].key.Unknown? { assert saved[i].key == KEYS[i]; }
    AllKnown(saved);
    forall i | 0 <= i < |saved|
      ensures LineOk(d, saved[i], now) <==> RestorableKey(c, d, r, stopTime, now, saved[i].key)
    {
      SavedLineOk(c, d, r, stopTime, now, KEYS[i]);
    }
    if Accepted(d, saved, now) {
      forall key: Key | !key.Unknown? ensures RestorableKey(c, d, r, stopTime, now, key) {
        assert saved[Position(key)].key == key && LineOk(d, saved[Position(key)], now);
      }
      AllKeysRestorable(c, d, r, stopTime, now);
    }
  }

  lemma AllKeysRestorable(c: Settings, d: Settings, r: Live, stopTime: nat, now: int)
    requires forall key: Key :: !key.Unknown? ==> RestorableKey(c, d, r, stopTime, now, key)
    ensures Restorable(c, r, stopTime, now) && c == d
  {
    assert RestorableKey(c, d, r, stopTime, now, Maxbytes) && RestorableKey(c, d, r, stopTime, now, ChunkSize);
    assert RestorableKey(c, d, r, stopTime, now, ItemSizeMax);
    assert RestorableKey(c, d, r, stopTime, now, SlabChunkSizeMax);
    assert RestorableKey(c, d, r, stopTime, now, SlabPageSize);
    assert RestorableKey(c, d, r, stopTime, now, SlabConfig) && RestorableKey(c, d, r, stopTime, now, UseCas);
    assert RestorableKey(c, d, r, stopTime, now, SlabReassign);
    assert RestorableKey(c, d, r, stopTime, now, MmapOldbase) && RestorableKey(c, d, r, stopTime, now, StopTime);
  }

  /** What was saved, in any order, is accepted exactly when it is restorable and the settings are the same, and then
      restores the state, whatever the state was before. */
  lemma RoundTrip(c: Settings, d: Settings, r: Live, stopTime: u64, lines: seq<Line>, q: Loaded, now: int)
    requires stopTime < TWO63 && multiset(lines) == multiset(Saved(c, r, stopTime))
    ensures Accepted(d, lines, now) <==> Restorable(c, r, stopTime, now) && c == d
    ensures Accepted(d, lines, now) ==> ApplyAll(q, lines, now) == Restored(r, stopTime, now)
  {
    OrderDoesNotMatter(d, lines, Saved(c, r, stopTime), now);
    SavedVerdict(c, d, r, stopTime, now);
    if Restorable(c, r, stopTime, now) {
      var s, t := ApplyAll(q, lines, now), Restored(r, stopTime, now);
      forall key: Key | IsState(key) ensures Field(s, key) == Field(t, key) {
        SavedLines(c, r, stopTime, lines, key);
        NumberSaved(c, r, stopTime, key);
        assert lines[..|lines|] == lines;
        FieldAfter(q, lines, |lines|, now, Line(key, Text(c, r, stopTime, key)));
        FieldRestored(r, stopTime, now, key);
      }
      SameFields(s, t);
    }
  }

  lemma SameFields(s: Loaded, t: Loaded)
    requires forall key: Key {:trigger Field(s, key)} {:trigger Field(t, key)} ::
               IsState(key) ==> Field(s, key) == Field(t, key)
    ensures s == t
  {
    assert Field(s, MmapOldbase) == Field(t, MmapOldbase) && Field(s, CurrentCas) == Field(t, CurrentCas);
    assert Field(s, OldestCas) == Field(t, OldestCas) && Field(s, OldestLive) == Field(t, OldestLive);
    assert Field(s, LoggerGid) == Field(t, LoggerGid) && Field(s, CurrentTime) == Field(t, CurrentTime);
    assert Field(s, StopTime) == Field(t, StopTime) && Field(s, ProcessStarted) == Field(t, ProcessStarted);
    assert Field(s, Hashpower) == Field(t, Hashpower);
  }

  // ----- The server -----

  /** The time a server knows nothing about before it has loaded anything. */
  function Reset(r: Loaded): Loaded {
    r.(processStarted := 0, timeDelta := 0, currentTime := 0)
  }

  /** The first line from position i on that does not fit, or the number of lines. */
  function FirstBad(c: Settings, lines: seq<Line>, i: nat, now: int): (j: nat)
    requires i <= |lines|
    ensures i <= j <= |lines| && (j < |lines| ==> !LineOk(c, lines[j], now))
    ensures forall k :: i <= k < j ==> LineOk(c, lines[k], now)
    decreases |lines| - i
  {
    if i < |lines| && LineOk(c, lines[i], now) then FirstBad(c, lines, i + 1, now) else i
  }

  lemma AcceptedIff(c: Settings, lines: seq<Line>, now: int)
    ensures Accepted(c, lines, now) <==> FirstBad(c, lines, 0, now) == |lines| && Known(lines) >= RESTART_REQUIRED_META
  {
  }

  /** What loading leaves to the rest of the start. */
  datatype Meta = Meta(oldBase: u64, processStarted: u64, currentTime: u32, timeDelta: int)

  class Server {
    const settings: Settings
    var mmapBase: u64
    var casId: u64
    var oldestCas: u64
    var oldestLive: u32
    var loggerGid: u64
    var hashpower: u32              // of the table in use
    var hashpowerInit: u32          // of the table that the start makes; 0: the default one
    var processStarted: u64
    var currentTime: u32
    var meta: Meta

    function State(): Live
      reads this
    {
      Live(mmapBase, casId, oldestCas, oldestLive, loggerGid, hashpower, processStarted, currentTime)
    }

    function Filled(): Loaded
      reads this
    {
      Loaded(meta.oldBase, casId, oldestCas, oldestLive, loggerGid, hashpowerInit,
             meta.processStarted, meta.currentTime, meta.timeDelta)
    }

    constructor (settings: Settings, r: Live, hashpowerInit: u32)
      ensures this.settings == settings && State() == r && this.hashpowerInit == hashpowerInit
    {
      this.settings := settings;
      mmapBase, casId, oldestCas, oldestLive := r.mmapBase, r.casId, r.oldestCas, r.oldestLive;
      loggerGid, hashpower, processStarted, currentTime := r.loggerGid, r.hashpower, r.processStarted, r.currentTime;
      this.hashpowerInit, meta := hashpowerInit, Meta(0, 0, 0, 0);
    }

    method SaveSettings() returns (lines: seq<Line>)
      ensures forall r, t :: lines == LinesFor(settings, r, t, SETTING_KEYS)
    {
      lines := [Line(SlabConfig, settings.slabConfig), Line(Maxbytes, Itoa(settings.maxbytes)),
                Line(ChunkSize, SItoa(settings.chunkSize)), Line(ItemSizeMax, SItoa(settings.itemSizeMax)),
                Line(SlabChunkSizeMax, SItoa(settings.slabChunkSizeMax)),
                Line(SlabPageSize, SItoa(settings.slabPageSize)),
                Line(UseCas, BoolText(settings.useCas)), Line(SlabReassign, BoolText(settings.slabReassign))];
    }

    method SaveState(stopTime: u64) returns (lines: seq<Line>)
      modifies this`casId
      ensures lines == LinesFor(settings, old(State()), stopTime, STATE_KEYS)
      ensures State() == old(State()).(casId := (old(casId) + 1) % TWO64)
    {
      lines := [Line(CurrentTime, Itoa(currentTime)), Line(ProcessStarted, Itoa(processStarted)),
                Line(StopTime, Itoa(stopTime))];
      casId := (casId + 1) % TWO64;
      lines := lines + [Line(CurrentCas, Itoa(casId)), Line(OldestCas, Itoa(oldestCas)),
                        Line(LoggerGid, Itoa(loggerGid)), Line(Hashpower, Itoa(hashpower)),
                        Line(OldestLive, Itoa(oldestLive)), Line(MmapOldbase, PrintPointer(mmapBase))];
    }

    method SaveMeta(stopTime: u64) returns (lines: seq<Line>)
      modifies this`casId
      ensures lines == Saved(settings, old(State()), stopTime)
      ensures casId == (old(casId) + 1) % TWO64
      ensures State() == old(State()).(casId := (old(casId) + 1) % TWO64)
    {
      lines := SaveSettings();
      ghost var r := State();
      LinesForConcat(settings, r, stopTime, SETTING_KEYS, STATE_KEYS);
      var state := SaveState(stopTime);
      lines := lines + state;
    }

    /** Takes over a part of the state. */
    method LoadState(l: Line, now: int) returns (ok: bool)
      requires IsState(l.key)
      modifies this`casId, this`oldestCas, this`oldestLive, this`loggerGid, this`hashpowerInit, this`meta
      ensures Filled() == Apply(old(Filled()), l, now) && ok == LineOk(settings, l, now)
    {
      ok := true;
      match l.key {
        case MmapOldbase =>
          var v := StrToULLHex(l.val);
          meta := meta.(oldBase := if v.Some? then v.value else 0);
          ok := v.Some?;
        case CurrentCas =>
          var v := StrToULL(l.val);
          if v.Some? { casId := v.value; } else { ok := false; }
        case OldestCas =>
          var v := StrToULL(l.val);
          if v.Some? { oldestCas := v.value; } else { ok := false; }
        case OldestLive =>
          var v := StrToUL(l.val);
          if v.Some? { oldestLive := v.value; } else { ok := false; }
        case LoggerGid =>
          var v := StrToULL(l.val);
          if v.Some? { loggerGid := v.value; } else { ok := false; }
        case ProcessStarted =>
          var v := StrToULL(l.val);
          if v.Some? { meta := meta.(processStarted := v.value); } else { ok := false; }
        case CurrentTime =>
          var v := StrToUL(l.val);
          if v.Some? { meta := meta.(currentTime := v.value); } else { ok := false; }
        case StopTime =>
          var v := StrToLL(l.val);
          if v.Some? {
            meta := meta.(timeDelta := now - v.value);
            ok := meta.timeDelta > 0;
          } else {
            ok := false;
          }
        case Hashpower =>
          var v := StrToUL(l.val);
          if v.Some? { hashpowerInit := v.value; } else { ok := false; }
      }
    }

    /** Takes over one line; false when the saved cache cannot be used because of it. */
    method LoadLine(l: Line, now: int) returns (ok: bool)
      modifies this`casId, this`oldestCas, this`oldestLive, this`loggerGid, this`hashpowerInit, this`meta
      ensures Filled() == Apply(old(Filled()), l, now) && ok == LineOk(settings, l, now)
    {
      ok := true;
      match l.key {
        case Maxbytes =>
          var v := StrToLL(l.val);
          ok := v.Some? && settings.maxbytes == v.value % TWO64;
        case ChunkSize => ok := StrToL(l.val) == Some(settings.chunkSize);
        case ItemSizeMax => ok := StrToL(l.val) == Some(settings.itemSizeMax);
        case SlabChunkSizeMax => ok := StrToL(l.val) == Some(settings.slabChunkSizeMax);
        case SlabPageSize => ok := StrToL(l.val) == Some(settings.slabPageSize);
        case SlabConfig => ok := l.val == settings.slabConfig;
        case UseCas => ok := SameBool(l.val, settings.useCas);
        case SlabReassign => ok := SameBool(l.val, settings.slabReassign);
        case Unknown =>
        case _ => ok := LoadState(l, now);
      }
    }

    /** Takes over a line if its key is known. */
    method LoadOne(l: Line, now: int) returns (ok: bool, known: bool)
      modifies this`casId, this`oldestCas, this`oldestLive, this`loggerGid, this`hashpowerInit, this`meta
      ensures Filled() == Apply(old(Filled()), l, now) && ok == LineOk(settings, l, now)
      ensures known == !l.key.Unknown?
    {
      known := !l.key.Unknown?;
      ok := true;
      if known {
        ok := LoadLine(l, now);
      }
    }

    /** Loads lines until one does not fit, and counts those with a known key. */
    method LoadLines(lines: seq<Line>, now: int) returns (ok: bool, linesSeen: nat, ghost seen: nat)
      modifies this`casId, this`oldestCas, this`oldestLive, this`loggerGid, this`hashpowerInit, this`meta
      ensures ok <==> FirstBad(settings, lines, 0, now) == |lines|
      ensures seen == if ok then |lines| else FirstBad(settings, lines, 0, now) + 1
      ensures Filled() == ApplyTo(old(Filled()), lines, seen, now) && linesSeen == KnownTo(lines, seen)
      ensures lines == [] ==> meta == old(meta)
    {
      ok := true;
      var i := 0;
      linesSeen := 0;
      ghost var r := Filled();
      while i < |lines| && ok
        invariant i <= |lines| && Filled() == ApplyTo(r, lines, i, now) && linesSeen == KnownTo(lines, i)
        invariant FirstBad(settings, lines, 0, now) == if ok then FirstBad(settings, lines, i, now) else i - 1
        invariant i == 0 ==> ok && meta == old(meta)
        decreases |lines| - i
      {
        var known;
        ok, known := LoadOne(lines[i], now);
        if known {
          linesSeen := linesSeen + 1;
        }
        i := i + 1;
      }
      seen := i;
    }

    /** Loads what was saved.  0: the saved cache can be used. */
    method LoadMeta(lines: seq<Line>, now: int) returns (reuseMmap: int, ghost seen: nat)
      modifies this`casId, this`oldestCas, this`oldestLive, this`loggerGid, this`hashpowerInit, this`meta
      ensures reuseMmap in {-1, 0} && (reuseMmap == 0 <==> Accepted(settings, lines, now))
      ensures lines == [] ==> meta == old(meta).(processStarted := 0, timeDelta := 0, currentTime := 0)
      ensures var bad := FirstBad(settings, lines, 0, now); seen == if bad < |lines| then bad + 1 else bad
      ensures seen <= |lines| && Filled() == ApplyTo(Reset(old(Filled())), lines, seen, now)
    {
      meta := meta.(processStarted := 0, timeDelta := 0, currentTime := 0);
      var ok, linesSeen;
      ok, linesSeen, seen := LoadLines(lines, now);
      AcceptedIff(settings, lines, now);
      reuseMmap := if ok then 0 else -1;
      if linesSeen < RESTART_REQUIRED_META {
        reuseMmap := -1;
      }
    }

    /** The rest of the start, with the memory mapped at memBase: the hash table, the time of the first start,
        and the clock, which reads `start` when it is set and ts at its first tick. */
    method Resume(memBase: u64, reuse: bool, start: int, ts: int)
      modifies this`mmapBase, this`hashpower, this`processStarted, this`currentTime
      ensures State() == Resumed(old(State()), old(hashpowerInit), old(meta), memBase, reuse, start, ts)
      ensures mmapBase == memBase && hashpower == if hashpowerInit == 0 then old(hashpower) else hashpowerInit
      ensures reuse ==> processStarted == meta.processStarted
      ensures reuse ==> currentTime == (ts - start + meta.currentTime + meta.timeDelta) % 0x1_0000_0000
      ensures !reuse ==> processStarted == old(processStarted) && currentTime == (ts - start + 62) % 0x1_0000_0000
    {
      mmapBase := memBase;
      if hashpowerInit != 0 {
        hashpower := hashpowerInit;
      }
      if reuse {
        processStarted := meta.processStarted;
      }
      var monotonicStart := start;
      if reuse {
        monotonicStart := monotonicStart - (meta.currentTime + meta.timeDelta);
      } else {
        monotonicStart := monotonicStart - (ITEM_UPDATE_INTERVAL + 2);
      }
      currentTime := RelativeTime(monotonicStart, ts);
    }
  }

  const ITEM_UPDATE_INTERVAL: nat := 60

  function Resumed(r: Live, hashpowerInit: u32, m: Meta, memBase: u64, reuse: bool, start: int, ts: int): Live {
    r.(mmapBase := memBase, hashpower := if hashpowerInit != 0 then hashpowerInit else r.hashpower,
       processStarted := if reuse then m.processStarted else r.processStarted,
       currentTime := RelativeTime(start - if reuse then m.currentTime + m.timeDelta else ITEM_UPDATE_INTERVAL + 2, ts))
  }

  /** strcmp with "true" and "false". */
  function SameBool(val: seq<byte>, b: bool): (same: bool)
    ensures same == (val == BoolText(b))
  {
    if val == FALSE then !b else if val == TRUE then b else false
  }

  // ----- The clock -----

  /** current_time, from the monotonic clock. */
  function RelativeTime(monotonicStart: int, ts: int): u32 {
    (ts - monotonicStart) % TWO32
  }

  /** Across a restart the relative clock goes on from where it stopped, by the time in between; it moves
      backwards exactly when its 32 bits overflow. */
  lemma ClockGoesOn(r: Live, stopTime: nat, now: int, ts0: int, ts: int)
    requires stopTime < now && ts0 <= ts && now - stopTime + ts - ts0 < TWO32
    ensures var b := Restored(r, stopTime, now);
      var t := RelativeTime(ts0 - (b.currentTime + b.timeDelta), ts);
      var elapsed := now - stopTime + ts - ts0;
      && t == (r.currentTime + elapsed) % TWO32
      && (t > r.currentTime <==> r.currentTime + elapsed < TWO32)
  {
  }

  // ----- A whole restart -----

  /** The state of a server that goes on where r stopped, its memory mapped at memBase, `elapsed` seconds on. */
  function GoesOn(r: Live, memBase: u64, elapsed: int): Live {
    r.(mmapBase := memBase, casId := (r.casId + 1) % TWO64, currentTime := (r.currentTime + elapsed) % TWO32)
  }

  lemma GoesOnIs(r: Live, b: Live, hashpowerInit: u32, m: Meta, memBase: u64,
                 stopTime: u64, now: int, start: int, ts: int)
    requires r.hashpower != 0
    requires Restored(r, stopTime, now) == Loaded(m.oldBase, b.casId, b.oldestCas, b.oldestLive, b.loggerGid,
                                                  hashpowerInit, m.processStarted, m.currentTime, m.timeDelta)
    ensures Resumed(b, hashpowerInit, m, memBase, true, start, ts) == GoesOn(r, memBase, now - stopTime + ts - start)
  {
  }

  /** Loads what a server in state r saved. */
  method LoadSaved(b: Server, lines: seq<Line>, ghost stopTime: u64, now: int, ghost c: Settings, ghost r: Live)
    returns (reuseMmap: int)
    requires stopTime < TWO63 && lines == Saved(c, r, stopTime)
    modifies b`casId, b`oldestCas, b`oldestLive, b`loggerGid, b`hashpowerInit, b`meta
    ensures reuseMmap == 0 <==> Restorable(c, r, stopTime, now) && c == b.settings
    ensures reuseMmap == 0 ==> b.Filled() == Restored(r, stopTime, now)
  {
    RoundTrip(c, b.settings, r, stopTime, lines, Reset(b.Filled()), now);
    ghost var seen;
    reuseMmap, seen := b.LoadMeta(lines, now);
  }

  /** One server stops, another starts: it takes over the cache exactly when the state is restorable and its settings
      are the same.  It then goes on where the old one stopped, and knows where the cache was mapped; what it
      saves itself in the end is where it is mapped now. */
  method StopAndStart(a: Server, b: Server, stopTime: u64, now: int, memBase: u64, start: int, ts: int)
    returns (reuseMmap: int)
    requires a != b && stopTime < TWO63 && a.hashpower != 0
    modifies a, b
    ensures reuseMmap == 0 <==> old(Restorable(a.settings, a.State(), stopTime, now)) && a.settings == b.settings
    ensures reuseMmap == 0 ==>
              b.State() == Live(memBase, (old(a.casId) + 1) % TWO64, old(a.oldestCas), old(a.oldestLive),
                                old(a.loggerGid), old(a.hashpower), old(a.processStarted),
                                (old(a.currentTime) + now - stopTime + ts - start) % 0x1_0000_0000)
    ensures reuseMmap == 0 ==> b.meta.oldBase == old(a.mmapBase)
  {
    ghost var r := a.State();
    var lines := a.SaveMeta(stopTime);
    reuseMmap := LoadSaved(b, lines, stopTime, now, a.settings, r);
    if reuseMmap == 0 { GoesOnIs(r, b.State(), b.hashpowerInit, b.meta, memBase, stopTime, now, start, ts); }
    b.Resume(memBase, reuseMmap == 0, start, ts);
  }
}
