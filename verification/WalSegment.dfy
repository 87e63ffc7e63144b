/** WAL segment names and the arithmetic on them (internal/cnpgi/common/wal_import.go). */
module WalSegment {
  import opened Wrappers
  import opened Paths
  import opened Hex

  const DEFAULT_WAL_SEGMENT_SIZE := 0x100_0000

  /** The three fields are int32 in the source. */
  datatype Segment = Segment(tli: int, log: int, seg: int) {
    predicate IsInt32() {
      && -0x8000_0000 <= tli < 0x8000_0000
      && -0x8000_0000 <= log < 0x8000_0000
      && -0x8000_0000 <= seg < 0x8000_0000
    }

    /** The fields that a parsed name can have. */
    predicate IsNatural() {
      IsInt32() && 0 <= tli && 0 <= log && 0 <= seg
    }

    function Name(): string {
      FormatInt32(tli) + FormatInt32(log) + FormatInt32(seg)
    }
  }

  /** An int32 keeps the low 32 bits, read as a signed number. */
  function Wrap32(n: int): (w: int)
    ensures -0x8000_0000 <= w < 0x8000_0000
    ensures -0x8000_0000 <= n < 0x8000_0000 ==> w == n
  {
    if -0x8000_0000 <= n < 0x8000_0000 then n else (n + 0x8000_0000) % 0x1_0000_0000 - 0x8000_0000
  }

  /** The %08X verb: the sign of a negative number takes one of the eight places. */
  function FormatInt32(n: int): string {
    if n >= 0 then Print(n, 8)
    else if -n < Pow16(7) then "-" + Print(-n, 7)
    else "-" + Print(-n, 8)
  }

  /** What may follow the 24 digits: nothing, a backup label's offset, or ".partial". */
  predicate SegmentTail(t: string) {
    || t == ""
    || t == ".partial"
    || (|t| == 16 && t[0] == '.' && AllHex(t[1..9]) && t[9..] == ".backup")
  }

  datatype SubMatches = SubMatches(tli: string, log: string, seg: string)

  /** The capture groups of the WALRe pattern. */
  function MatchWALRe(name: string): (m: Option<SubMatches>)
    ensures m.Some? ==> AllHex(m.value.tli) && AllHex(m.value.log) && AllHex(m.value.seg)
  {
    if |name| < 8 || !AllHex(name[..8]) then None
    else if |name| >= 24 && AllHex(name[8..24]) && SegmentTail(name[24..]) then
      assert forall i :: 8 <= i < 24 ==> name[i] == name[8..24][i - 8];
      Some(SubMatches(name[..8], name[8..16], name[16..24]))
    else if name[8..] == ".history" then Some(SubMatches(name[..8], "", ""))
    else None
  }

  /** The name of a regular segment, a partial one, a backup label or a timeline history. */
  predicate WellFormed(name: string) {
    MatchWALRe(name).Some?
  }

  predicate IsWALFile(name: string) {
    var base := Base(name);
    |base| == 24 && AllHex(base)
  }

  /** strconv.ParseInt(digits, 16, 32) on a string of hexadecimal digits. */
  function ParseInt32(digits: string): Option<int>
    requires AllHex(digits)
  {
    if digits == "" || Parse(digits) >= 0x8000_0000 then None else Some(Parse(digits))
  }

  function SegmentFromName(name: string): Option<Segment> {
    SegmentFromBase(Base(name))
  }

  function SegmentFromBase(base: string): Option<Segment> {
    match MatchWALRe(base)
    case None => None
    case Some(groups) =>
      if |base| != 24 then None
      else
        var tli, log, seg := ParseInt32(groups.tli), ParseInt32(groups.log), ParseInt32(groups.seg);
        if tli.None? || log.None? || seg.None? then None
        else Some(Segment(tli.value, log.value, seg.value))
  }

  /**
   * The names of the grammar: 24 digits for a segment, with ".partial" for an unfinished one or an offset and ".backup"
   * for a backup label, and eight digits with ".history" for a timeline.
   */
  lemma GrammarExactly(name: string)
    ensures WellFormed(name) <==>
      || (|name| == 24 && AllHex(name))
      || (|name| == 32 && AllHex(name[..24]) && name[24..] == ".partial")
      || (|name| == 40 && AllHex(name[..24]) && name[24] == '.' && AllHex(name[25..33]) && name[33..] == ".backup")
      || (|name| == 16 && AllHex(name[..8]) && name[8..] == ".history")
  {
    hide IsHexDigit;
    if |name| >= 24 {
      assert name[..24] == name[..8] + name[8..24];
      assert |name| == 40 ==> name[24..][1..9] == name[25..33] && name[24..][9..] == name[33..];
      assert |name| == 24 ==> name[..24] == name && name[24..] == "";
    }
  }

  // ----- Names and segments are two forms of one thing -----

  lemma NameShape(s: Segment)
    requires s.IsNatural()
    ensures |s.Name()| == 24 && AllHex(s.Name()) && Plain(s.Name())
    ensures s.Name()[..8] == Print(s.tli, 8)
    ensures s.Name()[8..16] == Print(s.log, 8)
    ensures s.Name()[16..24] == Print(s.seg, 8)
    ensures MatchWALRe(s.Name()) == Some(SubMatches(Print(s.tli, 8), Print(s.log, 8), Print(s.seg, 8)))
  {
    var name := s.Name();
    assert AllHex(name[8..24]);
    assert name[24..] == "";
  }

  lemma ParsePrintedBase(s: Segment)
    requires s.IsNatural()
    ensures SegmentFromBase(s.Name()) == Some(s)
  {
    NameShape(s);
    Pow16Of8();
    ParsePrint(s.tli, 8);
    ParsePrint(s.log, 8);
    ParsePrint(s.seg, 8);
  }

  /** Parsing a printed name, alone or behind a directory, gives the segment back. */
  lemma ParsePrintedName(s: Segment, dir: string)
    requires s.IsNatural()
    ensures SegmentFromName(s.Name()) == Some(s)
    ensures SegmentFromName(Join(dir, s.Name())) == Some(s)
    ensures IsWALFile(s.Name()) && IsWALFile(Join(dir, s.Name()))
  {
    NameShape(s);
    BaseOfPlain(s.Name());
    BaseOfJoin(dir, s.Name());
    ParsePrintedBase(s);
  }

  lemma GroupPrint(g: string)
    requires |g| == 8 && AllHex(g) && ParseInt32(g).Some?
    ensures 0 <= ParseInt32(g).value < 0x8000_0000
    ensures FormatInt32(ParseInt32(g).value) == Upper(g)
  {
    PrintParse(g);
  }

  lemma UpperOf24(b: string)
    requires |b| == 24
    ensures Upper(b) == Upper(b[..8]) + Upper(b[8..16]) + Upper(b[16..24])
  {
  }

  /** Printing a parsed name gives the upper-case form of its last path element. */
  lemma PrintParsedName(name: string)
    requires SegmentFromName(name).Some?
    ensures SegmentFromName(name).value.IsNatural()
    ensures SegmentFromName(name).value.Name() == Upper(Base(name))
  {
    hide Base, Parse, ParseInt32, Print, FormatInt32, Upper, MatchWALRe;
    var b := Base(name);
    MatchOf24(b);
    GroupPrint(b[..8]);
    GroupPrint(b[8..16]);
    GroupPrint(b[16..24]);
    UpperOf24(b);
  }

  lemma MatchOf24(b: string)
    requires |b| == 24
    ensures MatchWALRe(b).Some? <==> AllHex(b)
    ensures AllHex(b) ==> MatchWALRe(b) == Some(SubMatches(b[..8], b[8..16], b[16..24]))
  {
    assert b[24..] == "";
    if AllHex(b) {
      assert AllHex(b[..8]) && AllHex(b[8..24]);
    } else {
      var i :| 0 <= i < 24 && !IsHexDigit(b[i]);
      assert i < 8 ==> b[..8][i] == b[i];
      assert i >= 8 ==> b[8..24][i - 8] == b[i];
      assert |b[8..]| == 16 && |".history"| == 8;
    }
  }

  lemma SmallGroup(g: string)
    requires |g| == 8 && AllHex(g)
    ensures ParseInt32(g).Some? <==> g[0] < '8'
  {
    Pow16Of8();
    LeadingDigit(g);
  }

  /** A name is accepted exactly when it has 24 digits and each group of eight is below 80000000. */
  lemma AcceptedNames(name: string)
    ensures SegmentFromName(name).Some? <==>
            var b := Base(name);
            |b| == 24 && AllHex(b) && b[0] < '8' && b[8] < '8' && b[16] < '8'
  {
    hide Base, Parse, ParseInt32, MatchWALRe;
    var b := Base(name);
    if |b| == 24 {
      MatchOf24(b);
      if AllHex(b) {
        SmallGroup(b[..8]);
        SmallGroup(b[8..16]);
        SmallGroup(b[16..24]);
      }
    }
  }

  predicate SegmentLess(a: Segment, b: Segment) {
    || a.tli < b.tli
    || (a.tli == b.tli && a.log < b.log)
    || (a.tli == b.tli && a.log == b.log && a.seg < b.seg)
  }

  lemma FieldOrder(m: int, n: int)
    requires 0 <= m < 0x8000_0000 && 0 <= n < 0x8000_0000
    ensures StrLess(Print(m, 8), Print(n, 8)) <==> m < n
    ensures Print(m, 8) == Print(n, 8) <==> m == n
  {
    Pow16Of8();
    PrintOrder(m, n, 8);
    PrintInjective(m, n, 8);
  }

  /** Eight digits, or a sign with seven or eight. */
  lemma Int32Shape(n: int)
    requires -0x8000_0000 <= n < 0x8000_0000
    ensures
      var f := FormatInt32(n);
      && |f| == (if n > -0x1000_0000 then 8 else 9)
      && (f[0] == '-' <==> n < 0)
      && forall k :: 0 < k < |f| ==> f[k] != '-'
  {
    hide Print, Parse;
    Pow16Of8();
  }

  lemma Int32Digits(n: int)
    requires -0x8000_0000 <= n < 0x8000_0000
    ensures n >= 0 ==> FormatInt32(n) == Print(n, 8) && n < Pow16(8)
    ensures n < 0 ==>
      var k := if n > -0x1000_0000 then 7 else 8;
      FormatInt32(n) == "-" + Print(-n, k) && FormatInt32(n)[1..] == Print(-n, k) && -n < Pow16(k)
  {
    hide Print;
    Pow16Of8();
  }

  lemma Int32Injective(m: int, n: int)
    requires -0x8000_0000 <= m < 0x8000_0000 && -0x8000_0000 <= n < 0x8000_0000
    requires FormatInt32(m) == FormatInt32(n)
    ensures m == n
  {
    hide FormatInt32, Print, Pow16;
    Int32Shape(m);
    Int32Shape(n);
    Int32Digits(m);
    Int32Digits(n);
    if m < 0 {
      PrintInjective(-m, -n, if m > -0x1000_0000 then 7 else 8);
    } else {
      PrintInjective(m, n, 8);
    }
  }

  /** Where the first of two printed numbers ends can be seen from both together: no sign can hide in a number. */
  lemma FirstLength(l: int, g: int)
    requires -0x8000_0000 <= l < 0x8000_0000 && -0x8000_0000 <= g < 0x8000_0000
    ensures
      var both := FormatInt32(l) + FormatInt32(g);
      |FormatInt32(l)| == if |both| == 16 || (|both| == 17 && both[8] == '-') then 8 else 9
  {
    hide FormatInt32;
    Int32Shape(l);
    Int32Shape(g);
  }

  lemma TwoInt32Injective(l: int, g: int, l': int, g': int)
    requires -0x8000_0000 <= l < 0x8000_0000 && -0x8000_0000 <= g < 0x8000_0000
    requires -0x8000_0000 <= l' < 0x8000_0000 && -0x8000_0000 <= g' < 0x8000_0000
    requires FormatInt32(l) + FormatInt32(g) == FormatInt32(l') + FormatInt32(g')
    ensures l == l' && g == g'
  {
    hide FormatInt32;
    FirstLength(l, g);
    FirstLength(l', g');
    ConcatInjective(FormatInt32(l), FormatInt32(g), FormatInt32(l'), FormatInt32(g'));
    Int32Injective(l, l');
    Int32Injective(g, g');
  }

  /** Different segments have different names, also those whose numbers have wrapped. */
  lemma NameInjective(a: Segment, b: Segment)
    requires a.IsInt32() && b.IsInt32() && a.tli >= 0 && b.tli >= 0
    ensures a.Name() == b.Name() <==> a == b
  {
    hide FormatInt32;
    if a.Name() == b.Name() {
      Int32Shape(a.tli);
      Int32Shape(b.tli);
      var x, x' := FormatInt32(a.log) + FormatInt32(a.seg), FormatInt32(b.log) + FormatInt32(b.seg);
      assert a.Name() == FormatInt32(a.tli) + x && b.Name() == FormatInt32(b.tli) + x';
      ConcatInjective(FormatInt32(a.tli), x, FormatInt32(b.tli), x');
      Int32Injective(a.tli, b.tli);
      TwoInt32Injective(a.log, a.seg, b.log, b.seg);
    }
  }

  lemma NameLess(a: Segment, b: Segment)
    requires a.IsNatural() && b.IsNatural()
    ensures
      var t, l, g := Print(a.tli, 8), Print(a.log, 8), Print(a.seg, 8);
      var t', l', g' := Print(b.tli, 8), Print(b.log, 8), Print(b.seg, 8);
      StrLess(a.Name(), b.Name()) <==>
      StrLess(t, t') || (t == t' && StrLess(l, l')) || (t == t' && l == l' && StrLess(g, g'))
  {
    hide StrLess, Print;
    ThreeFieldOrder(Print(a.tli, 8), Print(a.log, 8), Print(a.seg, 8),
                    Print(b.tli, 8), Print(b.log, 8), Print(b.seg, 8));
  }

  /** The string order of names is the order of timeline, log and segment. */
  lemma NameOrder(a: Segment, b: Segment)
    requires a.IsNatural() && b.IsNatural()
    ensures StrLess(a.Name(), b.Name()) <==> SegmentLess(a, b)
  {
    NameLess(a, b);
    FieldOrder(a.tli, b.tli);
    FieldOrder(a.log, b.log);
    FieldOrder(a.seg, b.seg);
  }

  lemma ThreeFieldOrder(t: string, l: string, g: string, t': string, l': string, g': string)
    requires |t| == |t'| && |l| == |l'|
    ensures StrLess(t + l + g, t' + l' + g') <==>
            StrLess(t, t') || (t == t' && StrLess(l, l')) || (t == t' && l == l' && StrLess(g, g'))
  {
    StrLessConcat(t + l, g, t' + l', g');
    StrLessConcat(t, l, t', l');
    ConcatInjective(t, l, t', l');
  }

  lemma ConcatInjective(a: string, a': string, b: string, b': string)
    requires |a| == |b|
    ensures a + a' == b + b' <==> a == b && a' == b'
  {
    if a + a' == b + b' {
      assert a == (a + a')[..|a|] && b == (b + b')[..|b|];
      assert a' == (a + a')[|a|..] && b' == (b + b')[|b|..];
    }
  }

  // ----- The next segments -----

  /** Go's integer division truncates toward zero. */
  function TruncatedDiv(a: nat, b: int): int
    requires b != 0
  {
    if b > 0 then a / b else -(a / -b)
  }

  function WalSegmentsPerFile(walSegmentSize: int): int
    requires walSegmentSize != 0
  {
    Wrap32(TruncatedDiv(0xFFFF_FFFF, walSegmentSize))
  }

  function Successor(s: Segment, perFile: int, skipLast: bool): (next: Segment)
    ensures s.IsInt32() ==> next.IsInt32()
  {
    var seg := Wrap32(s.seg + 1);
    if seg > perFile || (skipLast && seg == perFile) then Segment(s.tli, Wrap32(s.log + 1), 0)
    else Segment(s.tli, s.log, seg)
  }

  /** The segment i steps after s. */
  function Nth(s: Segment, i: nat, perFile: int, skipLast: bool): Segment {
    if i == 0 then s else Successor(Nth(s, i - 1, perFile, skipLast), perFile, skipLast)
  }

  lemma NthStep(s: Segment, i: nat, perFile: int, skipLast: bool)
    ensures Nth(s, i + 1, perFile, skipLast) == Successor(Nth(s, i, perFile, skipLast), perFile, skipLast)
  {
  }

  predicate SkipsLast(postgresVersion: Option<int>) {
    postgresVersion.Some? && postgresVersion.value < 90300
  }

  function PerFile(segmentSize: Option<int>): int
    requires segmentSize.Some? ==> segmentSize.value != 0
  {
    WalSegmentsPerFile(if segmentSize.None? then DEFAULT_WAL_SEGMENT_SIZE else segmentSize.value)
  }

  /** The segments from s on, in order. */
  predicate ListsNext(list: seq<Segment>, s: Segment, perFile: int, skipLast: bool) {
    forall i :: 0 <= i < |list| ==> list[i] == Nth(s, i, perFile, skipLast)
  }

  lemma ListsNextAppend(list: seq<Segment>, s: Segment, perFile: int, skipLast: bool)
    requires ListsNext(list, s, perFile, skipLast)
    ensures ListsNext(list + [Nth(s, |list|, perFile, skipLast)], s, perFile, skipLast)
  {
  }

  method NextSegments(segment: Segment, size: nat, postgresVersion: Option<int>, segmentSize: Option<int>)
    returns (result: seq<Segment>)
    requires segmentSize.Some? ==> segmentSize.value != 0
    ensures |result| == size
    ensures ListsNext(result, segment, PerFile(segmentSize), SkipsLast(postgresVersion))
  {
    result := [];
    var walSegPerFile;
    if segmentSize.None? {
      walSegPerFile := WalSegmentsPerFile(DEFAULT_WAL_SEGMENT_SIZE);
    } else {
      walSegPerFile := WalSegmentsPerFile(segmentSize.value);
    }
    assert walSegPerFile == PerFile(segmentSize);
    var skipLastSegment := postgresVersion.Some? && postgresVersion.value < 90300;
    var current := segment;
    assert ListsNext(result, segment, walSegPerFile, skipLastSegment);
    hide PerFile, WalSegmentsPerFile, Wrap32, ListsNext;
    while |result| < size
      invariant |result| <= size
      invariant current == Nth(segment, |result|, walSegPerFile, skipLastSegment)
      invariant ListsNext(result, segment, walSegPerFile, skipLastSegment)
    {
      ghost var before, n := current, |result|;
      ListsNextAppend(result, segment, walSegPerFile, skipLastSegment);
      result := result + [Segment(current.tli, current.log, current.seg)];
      current := current.(seg := Wrap32(current.seg + 1));
      if current.seg > walSegPerFile || (skipLastSegment && current.seg == walSegPerFile) {
        current := current.(log := Wrap32(current.log + 1));
        current := current.(seg := 0);
      }
      assert current == Successor(before, walSegPerFile, skipLastSegment);
      NthStep(segment, n, walSegPerFile, skipLastSegment);
    }
  }

  /** The sizes PostgreSQL admits in this range: the powers of two from 1 MB to 1 GB. */
  predicate SegmentSize(size: int) {
    size in {0x10_0000, 0x20_0000, 0x40_0000, 0x80_0000, 0x100_0000, 0x200_0000, 0x400_0000,
             0x800_0000, 0x1000_0000, 0x2000_0000, 0x4000_0000}
  }

  /** Segments of a log file, one of which may be left out. */
  function SegmentBase(size: int, skipLast: bool): int
    requires SegmentSize(size)
  {
    if skipLast then WalSegmentsPerFile(size) else WalSegmentsPerFile(size) + 1
  }

  lemma SegmentsFillALogFile(size: int)
    requires SegmentSize(size)
    ensures SegmentBase(size, false) * size == 0x1_0000_0000
    ensures SegmentBase(size, true) >= 3
  {
  }

  /** The position of a segment in the two-digit number system whose low digit has this base. */
  function Ordinal(s: Segment, base: int): int {
    s.log * base + s.seg
  }

  predicate InRange(s: Segment, base: int) {
    s.IsNatural() && s.seg < base
  }

  /** On one timeline, in-range segments are identified and ordered by their ordinals. */
  lemma OrdinalOrder(a: Segment, b: Segment, base: int)
    requires InRange(a, base) && InRange(b, base) && a.tli == b.tli
    ensures Ordinal(a, base) < Ordinal(b, base) <==> SegmentLess(a, b)
    ensures Ordinal(a, base) == Ordinal(b, base) <==> a == b
  {
    if a.log < b.log {
      MulAtLeast(b.log - a.log, base);
      assert (b.log - a.log) * base == b.log * base - a.log * base;
    } else if b.log < a.log {
      MulAtLeast(a.log - b.log, base);
      assert (a.log - b.log) * base == a.log * base - b.log * base;
    }
  }

  lemma MulAtLeast(e: int, p: nat)
    requires e >= 1
    ensures e * p >= p
  {
  }

  lemma MulMonotone(a: int, b: int, p: nat)
    requires a <= b
    ensures a * p <= b * p
  {
    assert (b - a) * p >= 0;
    assert (b - a) * p == b * p - a * p;
  }

  lemma MulReflects(a: int, b: int, p: nat)
    requires a * p < b * p
    ensures a < b
  {
    if b <= a {
      MulMonotone(b, a, p);
    }
  }

  /** The successor of an in-range segment stays below the log limit, or reaches it exactly. */
  lemma LogBelow(s: Segment, base: int, limit: int)
    requires InRange(s, base)
    ensures Ordinal(s, base) + 1 < limit * base ==>
      s.log < limit && (s.log == limit - 1 ==> s.seg + 1 < base)
    ensures Ordinal(s, base) + 1 == limit * base ==> s.log == limit - 1 && s.seg + 1 == base
    ensures s.log < limit ==> Ordinal(s, base) < limit * base
  {
    if s.log >= limit {
      MulMonotone(limit, s.log, base);
    } else if s.log == limit - 1 {
      assert limit * base == s.log * base + base;
    } else {
      MulMonotone(s.log + 2, limit, base);
      assert (s.log + 2) * base == s.log * base + 2 * base;
    }
  }

  lemma SegmentBaseBounds(size: int, skipLast: bool)
    requires SegmentSize(size)
    ensures 3 <= SegmentBase(size, skipLast) <= 0x1000
    ensures WalSegmentsPerFile(size) == SegmentBase(size, skipLast) - if skipLast then 0 else 1
  {
  }

  /** Up to the base a step counts on in the log file, and then it starts the next one. */
  lemma SuccessorForm(s: Segment, size: int, skipLast: bool)
    requires SegmentSize(size)
    requires s.IsInt32() && s.seg < SegmentBase(size, skipLast)
    ensures
      var log := if s.log == 0x7FFF_FFFF then -0x8000_0000 else s.log + 1;
      Successor(s, WalSegmentsPerFile(size), skipLast) ==
        if s.seg + 1 < SegmentBase(size, skipLast) then s.(seg := s.seg + 1) else Segment(s.tli, log, 0)
  {
    hide SegmentBase, WalSegmentsPerFile;
    SegmentBaseBounds(size, skipLast);
  }

  lemma InRangeStep(s: Segment, size: int, skipLast: bool)
    requires SegmentSize(size)
    requires InRange(s, SegmentBase(size, skipLast))
    requires Ordinal(s, SegmentBase(size, skipLast)) + 1 < 0x8000_0000 * SegmentBase(size, skipLast)
    ensures
      var base := SegmentBase(size, skipLast);
      var n := Successor(s, WalSegmentsPerFile(size), skipLast);
      InRange(n, base) && n.tli == s.tli && Ordinal(n, base) == Ordinal(s, base) + 1
  {
    hide SegmentBase, WalSegmentsPerFile, Successor;
    var base := SegmentBase(size, skipLast);
    SegmentBaseBounds(size, skipLast);
    SuccessorForm(s, size, skipLast);
    LogBelow(s, base, 0x8000_0000);
    assert (s.log + 1) * base == s.log * base + base;
  }

  /** Element i is the one in-range segment of the same timeline i places further on. */
  lemma {:induction false} NthOrdinal(s: Segment, i: nat, size: int, skipLast: bool)
    requires SegmentSize(size)
    requires InRange(s, SegmentBase(size, skipLast))
    requires Ordinal(s, SegmentBase(size, skipLast)) + i < 0x8000_0000 * SegmentBase(size, skipLast)
    ensures
      var base := SegmentBase(size, skipLast);
      var n := Nth(s, i, WalSegmentsPerFile(size), skipLast);
      InRange(n, base) && n.tli == s.tli && Ordinal(n, base) == Ordinal(s, base) + i
    decreases i
  {
    if i > 0 {
      hide SegmentBase, WalSegmentsPerFile, Successor, Ordinal, InRange;
      NthOrdinal(s, i - 1, size, skipLast);
      InRangeStep(Nth(s, i - 1, WalSegmentsPerFile(size), skipLast), size, skipLast);
    }
  }

  /** Once the ordinals run out, the log number wraps to a negative one. */
  lemma FirstWrap(s: Segment, i: nat, size: int, skipLast: bool)
    requires SegmentSize(size)
    requires InRange(s, SegmentBase(size, skipLast))
    requires Ordinal(s, SegmentBase(size, skipLast)) + i == 0x8000_0000 * SegmentBase(size, skipLast)
    ensures Nth(s, i, WalSegmentsPerFile(size), skipLast).log == -0x8000_0000
  {
    hide SegmentBase, WalSegmentsPerFile, Successor;
    var base := SegmentBase(size, skipLast);
    LogBelow(s, base, 0x8000_0000);
    assert i > 0;
    NthOrdinal(s, i - 1, size, skipLast);
    var p := Nth(s, i - 1, WalSegmentsPerFile(size), skipLast);
    SuccessorForm(p, size, skipLast);
    LogBelow(p, base, 0x8000_0000);
  }

  /**
   * The list is ordinal addition on one timeline exactly when the last ordinal
   * still has a log number below 2^31; otherwise some element has wrapped.
   */
  lemma NextSegmentsAreOrdinalAddition(s: Segment, count: nat, size: int, skipLast: bool)
    requires SegmentSize(size)
    requires InRange(s, SegmentBase(size, skipLast))
    ensures
      var base := SegmentBase(size, skipLast);
      var perFile := WalSegmentsPerFile(size);
      (forall i :: 0 <= i < count ==>
        InRange(Nth(s, i, perFile, skipLast), base)
        && Nth(s, i, perFile, skipLast).tli == s.tli
        && Ordinal(Nth(s, i, perFile, skipLast), base) == Ordinal(s, base) + i)
      <==> count == 0 || Ordinal(s, base) + count <= 0x8000_0000 * base
  {
    var base := SegmentBase(size, skipLast);
    var perFile := WalSegmentsPerFile(size);
    if Ordinal(s, base) + count <= 0x8000_0000 * base {
      forall i | 0 <= i < count
        ensures InRange(Nth(s, i, perFile, skipLast), base)
        ensures Nth(s, i, perFile, skipLast).tli == s.tli
        ensures Ordinal(Nth(s, i, perFile, skipLast), base) == Ordinal(s, base) + i
      {
        NthOrdinal(s, i, size, skipLast);
      }
    } else if count > 0 {
      LogBelow(s, base, 0x8000_0000);
      var i := 0x8000_0000 * base - Ordinal(s, base);
      assert i >= 0;
      FirstWrap(s, i, size, skipLast);
      assert !InRange(Nth(s, i, perFile, skipLast), base);
    }
  }

  /** The names of the list strictly increase, so they are pairwise distinct. */
  lemma NextNamesIncrease(s: Segment, i: nat, j: nat, size: int, skipLast: bool)
    requires SegmentSize(size)
    requires InRange(s, SegmentBase(size, skipLast)) && i < j
    requires Ordinal(s, SegmentBase(size, skipLast)) + j < 0x8000_0000 * SegmentBase(size, skipLast)
    ensures StrLess(Nth(s, i, WalSegmentsPerFile(size), skipLast).Name(),
                    Nth(s, j, WalSegmentsPerFile(size), skipLast).Name())
  {
    NthOrdinal(s, i, size, skipLast);
    NthOrdinal(s, j, size, skipLast);
    var a, b := Nth(s, i, WalSegmentsPerFile(size), skipLast), Nth(s, j, WalSegmentsPerFile(size), skipLast);
    OrdinalOrder(a, b, SegmentBase(size, skipLast));
    NameOrder(a, b);
  }

  /** Before version 9.3 the last 16 MB segment of a log file is not used, and from then on it is. */
  lemma LastSegmentByVersion(s: Segment, i: nat, version: Option<int>)
    requires s.IsNatural() && s.seg < 255
    requires Ordinal(s, 255) + i < 0x8000_0000 * 255
    ensures version.Some? && version.value < 90300 ==> Nth(s, i, PerFile(None), SkipsLast(version)).seg < 255
    ensures version.None? || version.value >= 90300 ==>
      Successor(s.(seg := 254), PerFile(None), SkipsLast(version)) == s.(seg := 255)
  {
    if version.Some? && version.value < 90300 {
      NthOrdinal(s, i, 0x100_0000, true);
    }
  }

  // ----- Beyond the last log number -----

  /** How many segments there are before the list comes back to where it was. */
  function Cycle(size: int, skipLast: bool): int
    requires SegmentSize(size)
  {
    0x1_0000_0000 * SegmentBase(size, skipLast)
  }

  /** One step adds one to the ordinal, less a whole cycle when the log number wraps. */
  lemma SuccessorOrdinal(s: Segment, size: int, skipLast: bool)
    requires SegmentSize(size)
    requires s.IsInt32() && s.seg < SegmentBase(size, skipLast)
    ensures
      var base := SegmentBase(size, skipLast);
      var n := Successor(s, WalSegmentsPerFile(size), skipLast);
      && n.IsInt32() && n.tli == s.tli && n.seg < base && (s.seg >= 0 ==> n.seg >= 0)
      && Ordinal(n, base) ==
         Ordinal(s, base) + 1 - (if s.log == 0x7FFF_FFFF && n.log != s.log then Cycle(size, skipLast) else 0)
  {
    hide SegmentBase, WalSegmentsPerFile, Successor, Wrap32;
    SegmentBaseBounds(size, skipLast);
    SuccessorForm(s, size, skipLast);
    var base := SegmentBase(size, skipLast);
    assert (s.log + 1) * base == s.log * base + base;
    assert -0x8000_0000 * base == 0x8000_0000 * base - 0x1_0000_0000 * base;
  }

  lemma OneMore(k: int, p: int)
    ensures (k + 1) * p == k * p + p
  {
  }

  /** Whole cycles apart, element i is i ordinals further on, however often the log number wraps. */
  lemma {:induction false} NthOrdinalInCycle(s: Segment, i: nat, size: int, skipLast: bool) returns (cycles: int)
    requires SegmentSize(size)
    requires s.IsInt32() && s.seg < SegmentBase(size, skipLast)
    ensures
      var base := SegmentBase(size, skipLast);
      var n := Nth(s, i, WalSegmentsPerFile(size), skipLast);
      && n.IsInt32() && n.tli == s.tli && n.seg < base && (s.seg >= 0 ==> n.seg >= 0)
      && Ordinal(n, base) == Ordinal(s, base) + i - cycles * Cycle(size, skipLast)
    decreases i
  {
    cycles := 0;
    if i > 0 {
      hide SegmentBase, WalSegmentsPerFile, Cycle, Ordinal, Successor;
      cycles := NthOrdinalInCycle(s, i - 1, size, skipLast);
      var p := Nth(s, i - 1, WalSegmentsPerFile(size), skipLast);
      SuccessorOrdinal(p, size, skipLast);
      OneMore(cycles, Cycle(size, skipLast));
      if p.log == 0x7FFF_FFFF && Successor(p, WalSegmentsPerFile(size), skipLast).log != p.log {
        cycles := cycles + 1;
      }
    }
  }

  /** A multiple that is smaller than the factor is zero. */
  lemma NoSmallMultiple(k: int, p: nat)
    requires 0 - p < k * p < p
    ensures k == 0
  {
    MulReflects(k, 1, p);
    MulReflects(-1, k, p);
  }

  /** Within one cycle no segment is listed twice. */
  lemma NextSegmentsDiffer(s: Segment, i: nat, j: nat, size: int, skipLast: bool)
    requires SegmentSize(size)
    requires s.IsInt32() && s.seg < SegmentBase(size, skipLast)
    requires i < j && j - i < Cycle(size, skipLast)
    ensures Nth(s, i, WalSegmentsPerFile(size), skipLast) != Nth(s, j, WalSegmentsPerFile(size), skipLast)
  {
    hide Nth, WalSegmentsPerFile, SegmentBase, Ordinal, Cycle;
    var before := NthOrdinalInCycle(s, i, size, skipLast);
    var after := NthOrdinalInCycle(s, j, size, skipLast);
    if Nth(s, i, WalSegmentsPerFile(size), skipLast) == Nth(s, j, WalSegmentsPerFile(size), skipLast) {
      assert (after - before) * Cycle(size, skipLast) ==
        after * Cycle(size, skipLast) - before * Cycle(size, skipLast);
      NoSmallMultiple(after - before, Cycle(size, skipLast));
    }
  }

  /** The ordinals of one cycle. */
  lemma OrdinalBounds(s: Segment, base: int)
    requires s.IsInt32() && 0 <= s.seg < base
    ensures -0x8000_0000 * base <= Ordinal(s, base) < 0x8000_0000 * base
  {
    MulMonotone(-0x8000_0000, s.log, base);
    MulMonotone(s.log + 1, 0x8000_0000, base);
    assert (s.log + 1) * base == s.log * base + base;
  }

  lemma OrdinalInjective(a: Segment, b: Segment, base: int)
    requires 0 <= a.seg < base && 0 <= b.seg < base && a.tli == b.tli
    requires Ordinal(a, base) == Ordinal(b, base)
    ensures a == b
  {
    assert (a.log - b.log) * base == a.log * base - b.log * base;
    NoSmallMultiple(a.log - b.log, base);
  }

  /** From a segment in range, the list repeats itself exactly after whole cycles. */
  lemma NextSegmentsRepeatExactly(s: Segment, i: nat, j: nat, size: int, skipLast: bool)
    requires SegmentSize(size)
    requires s.IsInt32() && 0 <= s.seg < SegmentBase(size, skipLast)
    ensures Nth(s, i, WalSegmentsPerFile(size), skipLast) == Nth(s, j, WalSegmentsPerFile(size), skipLast) <==>
      exists k: int :: j - i == k * Cycle(size, skipLast)
  {
    hide Nth, WalSegmentsPerFile, SegmentBase, Ordinal;
    var base := SegmentBase(size, skipLast);
    var before := NthOrdinalInCycle(s, i, size, skipLast);
    var after := NthOrdinalInCycle(s, j, size, skipLast);
    var a, b := Nth(s, i, WalSegmentsPerFile(size), skipLast), Nth(s, j, WalSegmentsPerFile(size), skipLast);
    var cycle := Cycle(size, skipLast);
    hide Cycle;
    assert (after - before) * cycle == after * cycle - before * cycle;
    if exists k: int :: j - i == k * cycle {
      var k: int :| j - i == k * cycle;
      assert Ordinal(b, base) - Ordinal(a, base) == (k - (after - before)) * cycle by {
        assert (k - (after - before)) * cycle == k * cycle - (after - before) * cycle;
      }
      OrdinalBounds(a, base);
      OrdinalBounds(b, base);
      assert cycle == 0x1_0000_0000 * base;
      NoSmallMultiple(k - (after - before), cycle);
      OrdinalInjective(a, b, base);
    }
  }

  /** Where the segment starts in the WAL, as a 64-bit log position. */
  function StartPosition(s: Segment, size: int): int {
    s.log * 0x1_0000_0000 + s.seg * size
  }

  /** Without skipping, the listed segments are contiguous in the WAL. */
  lemma NextSegmentsAreContiguous(s: Segment, i: nat, size: int)
    requires SegmentSize(size)
    requires InRange(s, SegmentBase(size, false))
    requires StartPosition(s, size) + i * size < 0x8000_0000_0000_0000
    ensures
      var n := Nth(s, i, WalSegmentsPerFile(size), false);
      n.tli == s.tli && StartPosition(n, size) == StartPosition(s, size) + i * size
  {
    var base := SegmentBase(size, false);
    SegmentsFillALogFile(size);
    PositionOfOrdinal(s, size);
    assert (Ordinal(s, base) + i) * size == Ordinal(s, base) * size + i * size;
    assert (0x8000_0000 * base) * size == 0x8000_0000_0000_0000;
    MulReflects(Ordinal(s, base) + i, 0x8000_0000 * base, size);
    NthOrdinal(s, i, size, false);
    PositionOfOrdinal(Nth(s, i, WalSegmentsPerFile(size), false), size);
  }

  lemma PositionOfOrdinal(s: Segment, size: int)
    requires SegmentSize(size)
    ensures StartPosition(s, size) == Ordinal(s, SegmentBase(size, false)) * size
  {
    var base := SegmentBase(size, false);
    SegmentsFillALogFile(size);
    assert Ordinal(s, base) * size == s.log * (base * size) + s.seg * size by {
      assert (s.log * base + s.seg) * size == s.log * base * size + s.seg * size;
      assert s.log * base * size == s.log * (base * size);
    }
  }
}
