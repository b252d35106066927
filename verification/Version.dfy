/** Release versions: the digit loop that reads them and the order used to refuse old configs. */
module Version {
  import opened Text

  type Triple = t: seq<int> | |t| == 3 witness [0, 0, 0]

  const MIN_ADOPTABLE := "0.3.0"

  // ---- reference reading: split at the dots, read each segment on its own ----

  /** The dot-separated segments; always at least one. */
  function Split(v: string): (segments: seq<string>)
    ensures segments != []
  {
    if v == "" then [""] else Extend(Split(v[..|v| - 1]), v[|v| - 1])
  }

  /** One more character: a dot opens a segment, anything else lengthens the last. */
  function Extend(segments: seq<string>, c: char): (longer: seq<string>)
    requires segments != []
    ensures longer != []
  {
    if c == '.' then segments + [""] else segments[|segments| - 1 := segments[|segments| - 1] + [c]]
  }

  /** The longest run of digits a segment ends in. */
  function TrailingDigits(segment: string): (d: string)
    ensures AllDigits(d)
  {
    if segment == "" || !IsDigit(segment[|segment| - 1]) then ""
    else TrailingDigits(segment[..|segment| - 1]) + [segment[|segment| - 1]]
  }

  /** A segment's number: the digits it ends in, in a 64-bit int. */
  function SegmentNumber(segment: string): int {
    Wrap64(Numeral(TrailingDigits(segment)))
  }

  function Parts(v: string): Triple {
    var s := Split(v);
    seq(3, i requires 0 <= i < 3 => if i < |s| then SegmentNumber(s[i]) else 0)
  }

  lemma SegmentNumberStep(segment: string, c: char)
    ensures SegmentNumber(segment + [c]) ==
            if IsDigit(c) then Wrap64(SegmentNumber(segment) * 10 + DigitValue(c)) else 0
  {
    var longer := segment + [c];
    assert longer[..|longer| - 1] == segment;
    if IsDigit(c) {
      var d := TrailingDigits(segment);
      assert (d + [c])[..|d|] == d;
      Wrap64Step(Numeral(d), DigitValue(c));
    }
  }

  /** The loop's variables. */
  datatype Reader = Reader(out: Triple, cur: int, idx: nat)
  {
    /** Storing the segment under way. */
    function Stored(): Triple { if idx < 3 then out[idx := cur] else out }
  }

  function Feed(r: Reader, c: char): Reader {
    if c == '.' then Reader(r.Stored(), 0, r.idx + 1)
    else if IsDigit(c) then r.(cur := Wrap64(r.cur * 10 + DigitValue(c)))
    else r.(cur := 0)
  }

  function Scan(v: string): Reader {
    if v == "" then Reader([0, 0, 0], 0, 0) else Feed(Scan(v[..|v| - 1]), v[|v| - 1])
  }

  /** The finished segments are stored, the last one is under way; number reads one segment. */
  ghost predicate HasRead(number: string -> int, r: Reader, segments: seq<string>) {
    && r.idx == |segments| - 1 && r.cur == number(segments[r.idx])
    && forall i :: 0 <= i < 3 ==> r.out[i] == if i < r.idx then number(segments[i]) else 0
  }

  lemma DotKeeps(number: string -> int, r: Reader, segments: seq<string>)
    requires HasRead(number, r, segments) && number("") == 0
    ensures HasRead(number, Reader(r.Stored(), 0, r.idx + 1), segments + [""])
  {
  }

  lemma OtherKeeps(number: string -> int, r: Reader, segments: seq<string>, c: char, next: int)
    requires HasRead(number, r, segments) && next == number(segments[r.idx] + [c])
    ensures HasRead(number, r.(cur := next), segments[r.idx := segments[r.idx] + [c]])
  {
  }

  lemma {:induction false} ScanReads(v: string)
    ensures HasRead(SegmentNumber, Scan(v), Split(v))
  {
    if v != "" {
      var r, segments, c := Scan(v[..|v| - 1]), Split(v[..|v| - 1]), v[|v| - 1];
      ScanReads(v[..|v| - 1]);
      if c == '.' {
        DotKeeps(SegmentNumber, r, segments);
      } else {
        SegmentNumberStep(segments[r.idx], c);
        OtherKeeps(SegmentNumber, r, segments, c, Feed(r, c).cur);
      }
    }
  }

  lemma ScanIsParts(v: string)
    ensures Scan(v).Stored() == Parts(v)
  {
    ScanReads(v);
  }

  /** The single pass over the characters computes the reference reading of every string. */
  method ReadParts(v: string) returns (out: Triple)
    ensures out == Parts(v)
  {
    out := [0, 0, 0];
    var cur, idx := 0, 0;
    assert v[..0] == "";
    for n := 0 to |v|
      invariant 0 <= idx && Reader(out, cur, idx) == Scan(v[..n])
    {
      var r := v[n];
      assert v[..n + 1][..n] == v[..n];
      if r == '.' {
        if idx < 3 { out := out[idx := cur]; }
        cur, idx := 0, idx + 1;
      } else if r < '0' || r > '9' {
        cur := 0;
      } else {
        cur := Wrap64(cur * 10 + (r as int - '0' as int));
      }
    }
    assert v[..|v|] == v;
    ScanIsParts(v);
    if idx < 3 { out := out[idx := cur]; }
  }

  // ---- order ----

  predicate Less(x: Triple, y: Triple) {
    || x[0] < y[0]
    || (x[0] == y[0] && x[1] < y[1])
    || (x[0] == y[0] && x[1] == y[1] && x[2] < y[2])
  }

  predicate VersionLess(a: string, b: string) { Less(Parts(a), Parts(b)) }

  method SemVerLT(a: string, b: string) returns (less: bool)
    ensures less == VersionLess(a, b)
  {
    var aa := ReadParts(a);
    var bb := ReadParts(b);
    for i := 0 to 3
      invariant forall j :: 0 <= j < i ==> aa[j] == bb[j]
      invariant Less(aa, bb) == VersionLess(a, b)
    {
      if aa[i] != bb[i] { return aa[i] < bb[i]; }
    }
    return false;
  }

  predicate Blocked(from: string) {
    from == "" || VersionLess(from, MIN_ADOPTABLE)
  }

  function Print(a: nat, b: nat, c: nat): string {
    Itoa(a) + "." + Itoa(b) + "." + Itoa(c)
  }

  lemma {:induction false} SplitConcat(x: string, y: string)
    ensures Split(x + "." + y) == Split(x) + Split(y)
    decreases |y|
  {
    var v := x + "." + y;
    if y == "" {
      assert v[..|v| - 1] == x;
    } else {
      var y' := y[..|y| - 1];
      assert v[..|v| - 1] == x + "." + y';
      SplitConcat(x, y');
    }
  }

  lemma {:induction false} SplitDotless(s: string)
    requires forall i :: 0 <= i < |s| ==> s[i] != '.'
    ensures Split(s) == [s]
  {
    if s != "" {
      SplitDotless(s[..|s| - 1]);
      assert s[..|s| - 1] + [s[|s| - 1]] == s;
    }
  }

  lemma {:induction false} TrailingDigitsOf(prefix: string, digits: string)
    requires AllDigits(digits) && (prefix != "" ==> !IsDigit(prefix[|prefix| - 1]))
    ensures TrailingDigits(prefix + digits) == digits
    decreases |digits|
  {
    if digits == "" {
      assert prefix + digits == prefix;
    } else {
      var d := digits[..|digits| - 1];
      assert (prefix + digits)[..|prefix + digits| - 1] == prefix + d;
      TrailingDigitsOf(prefix, d);
      assert d + [digits[|digits| - 1]] == digits;
    }
  }

  lemma PrintedSegment(prefix: string, n: nat)
    requires prefix in {"", "v"} && n <= MAX_INT64
    ensures Split(prefix + Itoa(n)) == [prefix + Itoa(n)] && SegmentNumber(prefix + Itoa(n)) == n
  {
    ItoaRoundTrip(n);
    SplitDotless(prefix + Itoa(n));
    TrailingDigitsOf(prefix, Itoa(n));
  }

  /** Three dotless segments joined by dots are read one by one. */
  lemma PartsOfThree(x: string, y: string, z: string)
    requires Split(x) == [x] && Split(y) == [y] && Split(z) == [z]
    ensures Parts(x + "." + y + "." + z) == [SegmentNumber(x), SegmentNumber(y), SegmentNumber(z)]
  {
    var v := x + "." + y + "." + z;
    SplitConcat(x + "." + y, z);
    SplitConcat(x, y);
    var s := Split(v);
    assert s == [x, y, z];
    assert Parts(v)[0] == SegmentNumber(s[0]) && Parts(v)[1] == SegmentNumber(s[1])
        && Parts(v)[2] == SegmentNumber(s[2]);
  }

  lemma PrefixFirst(p: string, x: string, y: string, z: string)
    ensures p + (x + "." + y + "." + z) == (p + x) + "." + ("" + y) + "." + ("" + z)
  {
  }

  /** Reading a printed version, with or without the leading v, gives the three numbers back. */
  lemma PartsOfPrinted(prefix: string, a: nat, b: nat, c: nat)
    requires prefix in {"", "v"} && a <= MAX_INT64 && b <= MAX_INT64 && c <= MAX_INT64
    ensures Parts(prefix + Print(a, b, c)) == [a, b, c]
  {
    PrintedSegment(prefix, a);
    PrintedSegment("", b);
    PrintedSegment("", c);
    PrefixFirst(prefix, Itoa(a), Itoa(b), Itoa(c));
    PartsOfThree(prefix + Itoa(a), "" + Itoa(b), "" + Itoa(c));
  }

  /** On printed versions the string order is the lexicographic order of the number triples. */
  lemma PrintedOrder(p: string, x: (nat, nat, nat), q: string, y: (nat, nat, nat))
    requires p in {"", "v"} && x.0 <= MAX_INT64 && x.1 <= MAX_INT64 && x.2 <= MAX_INT64
    requires q in {"", "v"} && y.0 <= MAX_INT64 && y.1 <= MAX_INT64 && y.2 <= MAX_INT64
    ensures VersionLess(p + Print(x.0, x.1, x.2), q + Print(y.0, y.1, y.2))
       <==> (x.0 < y.0 || (x.0 == y.0 && (x.1 < y.1 || (x.1 == y.1 && x.2 < y.2))))
  {
    PartsOfPrinted(p, x.0, x.1, x.2);
    PartsOfPrinted(q, y.0, y.1, y.2);
  }

  /** A strict weak order on all strings: irreflexive, transitive, and "neither is less" is transitive too. */
  lemma StrictWeakOrder(a: string, b: string, c: string)
    ensures !VersionLess(a, a)
    ensures VersionLess(a, b) && VersionLess(b, c) ==> VersionLess(a, c)
    ensures !VersionLess(a, b) && !VersionLess(b, c) ==> !VersionLess(a, c)
  {
  }

  /** Blocked origins are exactly those the order puts below 0.3.0, so everything below a blocked origin is blocked. */
  lemma BlockedExact(a: string, b: string)
    ensures Blocked(b) <==> Less(Parts(b), [0, 3, 0])
    ensures Blocked(b) && VersionLess(a, b) ==> Blocked(a)
  {
    MinAdoptableParts();
    assert Split("") == [""];
  }

  lemma MinAdoptableParts()
    ensures Parts(MIN_ADOPTABLE) == [0, 3, 0]
  {
    assert Itoa(0) == "0" && Itoa(3) == "3";
    assert "" + Print(0, 3, 0) == MIN_ADOPTABLE;
    PartsOfPrinted("", 0, 3, 0);
  }

  // ---- where the reading is not what the documentation says ----

  /** The number segment i ends in, in unbounded arithmetic; 0 when there is no such segment. */
  function Reading(v: string, i: nat): nat {
    if i < |Split(v)| then Numeral(TrailingDigits(Split(v)[i])) else 0
  }

  /**
   Non-numeric segments are documented as treated as 0. On every string a
   segment counts as 0 if and only if the digits it ends in denote a multiple
   of 2^64.
   */
  lemma SegmentIsZero(v: string, i: nat)
    requires i < 3
    ensures Parts(v)[i] == 0 <==> Reading(v, i) % TWO_64 == 0
  {
    Wrap64Zero(Reading(v, i));
    assert Wrap64(0) == 0;
  }

  /** The input that shows it: a release candidate of 0.3.0 reads as 0.3.1 and ranks above 0.3.0. */
  lemma ReleaseCandidate()
    ensures Parts("0.3.0-rc1") == [0, 3, 1]
    ensures VersionLess("0.3.0", "0.3.0-rc1") && !Blocked("0.3.0-rc1")
  {
    SplitDotless("0-rc1");
    TrailingDigitsOf("0-rc", Itoa(1));
    assert "0-rc" + Itoa(1) == "0-rc1";
    ItoaRoundTrip(1);
    PrintedSegment("", 0);
    PrintedSegment("", 3);
    PartsOfThree("" + Itoa(0), "" + Itoa(3), "0-rc1");
    assert ("" + Itoa(0)) + "." + ("" + Itoa(3)) + "." + "0-rc1" == "0.3.0-rc1";
    MinAdoptableParts();
  }

  function WithoutV(v: string): string { if v != "" && v[0] == 'v' then v[1..] else v }

  /** A dotted numeric version: after an optional v, every segment is a number. */
  predicate Parseable(v: string) {
    forall i :: 0 <= i < |Split(WithoutV(v))| ==> Split(WithoutV(v))[i] != "" && AllDigits(Split(WithoutV(v))[i])
  }

  /**
   On every string: an origin is blocked if and only if the numbers its first
   three segments end in, read in a 64-bit int, come before 0, 3, 0. So an
   unparseable origin, documented as always blocked, is blocked when none of
   them ends in a digit, and admitted when, say, the first ends in 1.
   */
  lemma OriginBlocked(v: string)
    ensures var a, b, c := Wrap64(Reading(v, 0)), Wrap64(Reading(v, 1)), Wrap64(Reading(v, 2));
            Blocked(v) <==> a < 0 || (a == 0 && (b < 3 || (b == 3 && c < 0)))
    ensures Reading(v, 0) == Reading(v, 1) == Reading(v, 2) == 0 ==> Blocked(v)
    ensures 1 <= Reading(v, 0) <= MAX_INT64 ==> !Blocked(v)
  {
    BlockedExact(v, v);
    assert Wrap64(0) == 0;
    var n := Wrap64(Reading(v, 0));
    assert Parts(v)[0] == n && Parts(v)[1] == Wrap64(Reading(v, 1)) && Parts(v)[2] == Wrap64(Reading(v, 2));
  }

  lemma NotParseable(v: string, i: nat)
    requires v != "" && v[0] != 'v' && i < |Split(v)| && Split(v)[i] != "" && !IsDigit(Split(v)[i][0])
    ensures !Parseable(v)
  {
    assert WithoutV(v) == v && !AllDigits(Split(v)[i]);
  }

  /** The input that shows the promise broken. */
  lemma UnparseableAdmitted()
    ensures !Parseable("x9") && !Blocked("x9")
  {
    SplitDotless("x9");
    TrailingDigitsOf("x", Itoa(9));
    assert "x" + Itoa(9) == "x9";
    NotParseable("x9", 0);
    ItoaRoundTrip(9);
    OriginBlocked("x9");
  }
}
