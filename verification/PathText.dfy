/** The canonical path text: printing polygon parts and reading them back (tools/map_pipeline/svgpath.py). The text is
    a subset of SVG path data: absolute moveto with the implicit lineto of section 8.3.2 of SVG 1.1, and closepath.
    Coordinates are exact reals; digits and white space are the ASCII ones. */
module PathText {
  import opened Optional

  type Point = (real, real)

  /** A ring without its repeated closing vertex. */
  type Ring = seq<Point>

  datatype Part = Part(exterior: Ring, holes: seq<Ring>)

  // ----------------------------------------------------------------- numbers

  function Digit(d: int): char
    requires 0 <= d < 10
  {
    ('0' as int + d) as char
  }

  predicate IsDigit(c: char) {
    '0' <= c <= '9'
  }

  function DigitValue(c: char): int {
    c as int - '0' as int
  }

  /** Decimal digits, without leading zeros. */
  function Digits(n: nat): (s: string)
    ensures s != [] && forall i :: 0 <= i < |s| ==> IsDigit(s[i])
  {
    if n < 10 then [Digit(n)] else Digits(n / 10) + [Digit(n % 10)]
  }

  function DigitsValue(s: string): int {
    if s == [] then 0 else 10 * DigitsValue(s[..|s| - 1]) + DigitValue(s[|s| - 1])
  }

  lemma DigitRound(d: int)
    requires 0 <= d < 10
    ensures DigitValue(Digit(d)) == d && IsDigit(Digit(d)) && (Digit(d) == '0' <==> d == 0)
  {
  }

  lemma {:induction false} DigitsRound(n: nat)
    ensures DigitsValue(Digits(n)) == n
  {
    DigitRound(n % 10);
    if n >= 10 {
      DigitsRound(n / 10);
      assert Digits(n)[..|Digits(n)| - 1] == Digits(n / 10);
    }
  }

  function RStrip(s: string, c: char): string {
    if s != [] && s[|s| - 1] == c then RStrip(s[..|s| - 1], c) else s
  }

  /** The nearest integer, a tie going to the even one. */
  function Round(x: real): int {
    var low := x.Floor;
    var rest := x - low as real;
    if rest < 0.5 || (rest == 0.5 && low % 2 == 0) then low else low + 1
  }

  function Sign(negative: bool): string {
    if negative then "-" else ""
  }

  function Abs(n: int): nat {
    if n < 0 then -n else n
  }

  /** Trailing zeros and a bare point removed, no negative zero. */
  function Stripped(s: string): string {
    var t := if '.' in s then RStrip(RStrip(s, '0'), '.') else s;
    if t == "-0" || t == "" then "0" else t
  }

  /** An exact decimal quotient by 100: sign, whole part q and as few of the two decimals d, e as it needs. */
  function Shortest(negative: bool, q: nat, d: int, e: int): string
    requires 0 <= d < 10 && 0 <= e < 10
  {
    Sign(negative) + Digits(q) +
    if e != 0 then ['.'] + [Digit(d)] + [Digit(e)] else if d != 0 then ['.'] + [Digit(d)] else []
  }

  function DecimalText(n: int): string {
    Shortest(n < 0, Abs(n) / 100, Abs(n) / 10 % 10, Abs(n) % 10)
  }

  function FormatNumber(v: real): string {
    Stripped(DecimalText(Round(v * 100.0)))
  }

  /** The grid coordinate nearest to v. */
  function Snap(v: real): real {
    Round(v * 100.0) as real / 100.0
  }

  lemma ThreeParts(a: nat)
    ensures a == 100 * (a / 100) + 10 * (a / 10 % 10) + a % 10
  {
  }

  lemma NotMinusZero(negative: bool, q: nat)
    requires negative ==> q > 0
    ensures Sign(negative) + Digits(q) != "-0" && Sign(negative) + Digits(q) != ""
  {
    DigitsRound(q);
    var s := Sign(negative) + Digits(q);
    assert negative ==> s[0] == '-' && s[1..] == Digits(q);
    assert !negative ==> s == Digits(q) && IsDigit(s[0]);
    assert DigitsValue(['0']) == 0;
    assert "-0"[1..] == ['0'];
  }

  lemma NoPoint(negative: bool, q: nat)
    ensures '.' !in Sign(negative) + Digits(q)
  {
    var s := Sign(negative) + Digits(q);
    forall i | 0 <= i < |s| ensures s[i] != '.' {
      assert i >= |Sign(negative)| ==> s[i] == Digits(q)[i - |Sign(negative)|];
    }
  }

  /** A number of hundredths is never printed with a trailing zero, a bare point or a negative zero, so nothing is
      stripped. */
  lemma NothingStripped(n: int)
    ensures Stripped(DecimalText(n)) == DecimalText(n)
  {
    hide Digits, Digit, IsDigit;
    var q, d, e := Abs(n) / 100, Abs(n) / 10 % 10, Abs(n) % 10;
    DigitRound(d);
    DigitRound(e);
    ThreeParts(Abs(n));
    var head := Sign(n < 0) + Digits(q);
    var s := DecimalText(n);
    NoPoint(n < 0, Abs(n) / 100);
    assert e == 0 && d == 0 ==> s == head;
    assert e != 0 || d != 0 ==> s[|s| - 1] != '0' && s[|s| - 1] != '.' && |s| >= 3 && s[|head|] == '.';
    if e == 0 && d == 0 {
      NotMinusZero(n < 0, q);
    }
  }

  // ----------------------------------------------------------- reading numbers

  function PowTen(k: nat): (p: int)
    ensures p > 0
  {
    if k == 0 then 1 else 10 * PowTen(k - 1)
  }

  predicate AllDigits(s: string) {
    s != [] && forall i :: 0 <= i < |s| ==> IsDigit(s[i])
  }

  /** Where c first occurs, or the length. */
  function IndexOf(s: string, c: char): (i: nat)
    ensures i <= |s| && (i < |s| ==> s[i] == c) && forall j :: 0 <= j < i ==> s[j] != c
  {
    if s == [] || s[0] == c then 0 else 1 + IndexOf(s[1..], c)
  }

  /** Digits, or digits, a point and digits. */
  predicate IsUnsigned(s: string) {
    AllDigits(s[..IndexOf(s, '.')]) && (IndexOf(s, '.') < |s| ==> AllDigits(s[IndexOf(s, '.') + 1..]))
  }

  predicate IsNumber(s: string) {
    if s != [] && s[0] == '-' then IsUnsigned(s[1..]) else IsUnsigned(s)
  }

  function UnsignedValue(s: string): real {
    var i := IndexOf(s, '.');
    if i == |s| then DigitsValue(s) as real
    else DigitsValue(s[..i]) as real + DigitsValue(s[i + 1..]) as real / PowTen(|s| - i - 1) as real
  }

  function NumberValue(s: string): real {
    if s != [] && s[0] == '-' then -UnsignedValue(s[1..]) else UnsignedValue(s)
  }

  lemma {:induction false} IndexAfter(a: string, b: string, c: char)
    requires (forall i :: 0 <= i < |a| ==> a[i] != c) && (b == [] || b[0] == c)
    ensures IndexOf(a + b, c) == |a|
  {
    if a == [] {
      assert a + b == b;
    } else {
      IndexAfter(a[1..], b, c);
      assert (a + b)[1..] == a[1..] + b;
    }
  }

  lemma TwoDigitValue(d: int, e: int)
    requires 0 <= d < 10 && 0 <= e < 10
    ensures DigitsValue([Digit(d)]) == d && DigitsValue([Digit(d)] + [Digit(e)]) == 10 * d + e
  {
    DigitRound(d);
    DigitRound(e);
    assert ([Digit(d)] + [Digit(e)])[..1] == [Digit(d)];
    assert [Digit(d)][..0] == [];
  }

  /** Whole digits q and a fraction f read back as q + f / 10^|f|. */
  lemma UnsignedPoint(q: nat, f: string)
    requires AllDigits(f)
    ensures IsUnsigned(Digits(q) + ['.'] + f)
    ensures UnsignedValue(Digits(q) + ['.'] + f) == q as real + DigitsValue(f) as real / PowTen(|f|) as real
  {
    hide Digits, DigitsValue, PowTen, IndexOf;
    var a := Digits(q);
    var s := a + ['.'] + f;
    assert s == a + (['.'] + f);
    IndexAfter(a, ['.'] + f, '.');
    DigitsRound(q);
    assert s[..|a|] == a && s[|a| + 1..] == f;
  }

  lemma UnsignedWhole(q: nat)
    ensures IsUnsigned(Digits(q)) && UnsignedValue(Digits(q)) == q as real
  {
    IndexAfter(Digits(q), [], '.');
    DigitsRound(q);
    assert Digits(q) + [] == Digits(q);
    assert Digits(q)[..|Digits(q)|] == Digits(q);
  }

  /** The shortest text without its sign reads back exactly. */
  lemma ShortestUnsigned(q: nat, d: int, e: int)
    requires 0 <= d < 10 && 0 <= e < 10
    ensures IsUnsigned(Shortest(false, q, d, e))
    ensures UnsignedValue(Shortest(false, q, d, e)) == (100 * q + 10 * d + e) as real / 100.0
  {
    hide Digits, DigitsValue, UnsignedValue, IsUnsigned, Digit;
    DigitRound(d);
    DigitRound(e);
    TwoDigitValue(d, e);
    assert PowTen(1) == 10 && PowTen(2) == 100;
    if e != 0 {
      var f := [Digit(d)] + [Digit(e)];
      UnsignedPoint(q, f);
      assert |f| == 2;
      assert Shortest(false, q, d, e) == Digits(q) + ['.'] + f;
    } else if d != 0 {
      UnsignedPoint(q, [Digit(d)]);
      assert Shortest(false, q, d, e) == Digits(q) + ['.'] + [Digit(d)];
    } else {
      UnsignedWhole(q);
      assert Shortest(false, q, d, e) == Digits(q);
    }
  }

  lemma ShortestSigned(q: nat, d: int, e: int)
    requires 0 <= d < 10 && 0 <= e < 10
    ensures Shortest(true, q, d, e) == ['-'] + Shortest(false, q, d, e)
    ensures Shortest(false, q, d, e) != [] && Shortest(false, q, d, e)[0] != '-'
  {
    assert Shortest(false, q, d, e)[0] == Digits(q)[0];
  }

  /** Printing a coordinate and reading it back gives the nearest grid coordinate. */
  lemma NumberRound(v: real)
    ensures IsNumber(FormatNumber(v)) && NumberValue(FormatNumber(v)) == Snap(v)
    ensures -0.005 <= Snap(v) - v <= 0.005
  {
    var n := Round(v * 100.0);
    var q, d, e := Abs(n) / 100, Abs(n) / 10 % 10, Abs(n) % 10;
    ThreeParts(Abs(n));
    NothingStripped(n);
    ShortestUnsigned(q, d, e);
    ShortestSigned(q, d, e);
    if n < 0 {
      assert FormatNumber(v)[1..] == Shortest(false, q, d, e);
    }
  }

  // ------------------------------------------------------------------- areas

  function Cross(p: Point, q: Point): real {
    p.0 * q.1 - q.0 * p.1
  }

  /** The cross products along an open polyline. */
  function PathSum(s: seq<Point>): real {
    if |s| < 2 then 0.0 else PathSum(s[..|s| - 1]) + Cross(s[|s| - 2], s[|s| - 1])
  }

  function Closed(ring: Ring): seq<Point> {
    if ring == [] then [] else ring + [ring[0]]
  }

  /** Twice the signed area. */
  function Area2(ring: Ring): real {
    PathSum(Closed(ring))
  }

  lemma ClosedStep(ring: Ring, i: nat)
    requires i < |ring|
    ensures PathSum(Closed(ring)[..i + 2]) == PathSum(Closed(ring)[..i + 1]) + Cross(ring[i], ring[(i + 1) % |ring|])
  {
    hide Cross;
    var c := Closed(ring);
    assert c[..i + 2][..i + 1] == c[..i + 1];
    assert c[i] == ring[i];
    if i + 1 < |ring| {
      assert (i + 1) % |ring| == i + 1;
    } else {
      assert (i + 1) % |ring| == 0;
    }
  }

  /** The shoelace loop. */
  method SignedArea(coords: Ring) returns (area: real)
    ensures area == Area2(coords) / 2.0
  {
    var s := 0.0;
    var n := |coords|;
    for i := 0 to n
      invariant s == PathSum(Closed(coords)[..if n == 0 then 0 else i + 1])
    {
      ClosedStep(coords, i);
      var p, q := coords[i], coords[(i + 1) % n];
      s := s + (p.0 * q.1 - q.0 * p.1);
    }
    assert Closed(coords)[..if n == 0 then 0 else n + 1] == Closed(coords);
    area := s / 2.0;
  }

  function Reverse(s: seq<Point>): seq<Point> {
    if s == [] then [] else [s[|s| - 1]] + Reverse(s[..|s| - 1])
  }

  /** The same ring walked the other way, from the same first vertex. */
  function Flip(ring: Ring): Ring {
    if ring == [] then [] else [ring[0]] + Reverse(ring[1..])
  }

  lemma {:induction false} PathSumFront(x: Point, t: seq<Point>)
    requires t != []
    ensures PathSum([x] + t) == Cross(x, t[0]) + PathSum(t)
    decreases |t|
  {
    hide Cross;
    var s := [x] + t;
    if |t| == 1 {
      assert s[..1] == [x];
    } else {
      PathSumFront(x, t[..|t| - 1]);
      assert s[..|s| - 1] == [x] + t[..|t| - 1];
    }
  }

  lemma {:induction false} ReverseEnds(s: seq<Point>)
    requires s != []
    ensures |Reverse(s)| == |s| && Reverse(s)[0] == s[|s| - 1] && Reverse(s)[|s| - 1] == s[0]
  {
    if |s| > 1 {
      ReverseEnds(s[..|s| - 1]);
    }
  }

  lemma CrossFlip(p: Point, q: Point)
    ensures Cross(p, q) == -Cross(q, p)
  {
  }

  lemma {:induction false} PathSumReverse(s: seq<Point>)
    ensures PathSum(Reverse(s)) == -PathSum(s)
  {
    hide Cross;
    if |s| >= 2 {
      var front := s[..|s| - 1];
      PathSumReverse(front);
      ReverseEnds(front);
      PathSumFront(s[|s| - 1], Reverse(front));
      CrossFlip(s[|s| - 2], s[|s| - 1]);
    } else if |s| == 1 {
      assert s[..0] == [];
    }
  }

  lemma {:induction false} ReverseAppend(s: seq<Point>, x: Point)
    ensures Reverse([x] + s) == Reverse(s) + [x]
    decreases |s|
  {
    var t := [x] + s;
    if s == [] {
      assert t[..0] == [];
    } else {
      ReverseAppend(s[..|s| - 1], x);
      assert t[..|t| - 1] == [x] + s[..|s| - 1];
    }
  }

  /** The flipped ring starts at the same vertex and goes through the others backwards. */
  lemma FlipAt(ring: Ring)
    ensures |Flip(ring)| == |ring|
    ensures forall i :: 0 <= i < |ring| ==> Flip(ring)[i] == ring[if i == 0 then 0 else |ring| - i]
  {
    if ring != [] {
      ReverseAt(ring[1..]);
    }
  }

  /** Counter-clockwise is positive: the triangle under the diagonal of the unit square has doubled area 1. */
  lemma UnitTriangle()
    ensures Area2([(0.0, 0.0), (1.0, 0.0), (0.0, 1.0)]) == 1.0
  {
    var ring: Ring := [(0.0, 0.0), (1.0, 0.0), (0.0, 1.0)];
    ClosedStep(ring, 0);
    ClosedStep(ring, 1);
    ClosedStep(ring, 2);
    assert Closed(ring)[..4] == Closed(ring);
  }

  /** Reversing a ring negates its shoelace sum. */
  lemma FlipNegates(ring: Ring)
    ensures Area2(Flip(ring)) == -Area2(ring)
  {
    if ring != [] {
      var rest := ring[1..];
      ReverseAppend(rest, ring[0]);
      assert ring == [ring[0]] + rest;
      assert Closed(ring)[..|ring|] == ring;
      assert Reverse(Closed(ring)) == [ring[0]] + Reverse(ring);
      assert Closed(Flip(ring)) == [ring[0]] + (Reverse(rest) + [ring[0]]);
      PathSumReverse(Closed(ring));
    }
  }

  // ---------------------------------------------------------------- printing

  /** Exteriors counter-clockwise, holes clockwise. */
  function Orient(p: Part): Part {
    Part(if Area2(p.exterior) >= 0.0 then p.exterior else Flip(p.exterior),
         seq(|p.holes|, i requires 0 <= i < |p.holes| =>
           if Area2(p.holes[i]) <= 0.0 then p.holes[i] else Flip(p.holes[i])))
  }

  function OrientAll(parts: seq<Part>): seq<Part> {
    seq(|parts|, i requires 0 <= i < |parts| => Orient(parts[i]))
  }

  function Tokens(ring: Ring): seq<string> {
    if ring == [] then [] else [FormatNumber(ring[0].0), FormatNumber(ring[0].1)] + Tokens(ring[1..])
  }

  function Join(ts: seq<string>): string {
    if ts == [] then "" else if |ts| == 1 then ts[0] else ts[0] + " " + Join(ts[1..])
  }

  function RingText(ring: Ring): string {
    "M " + Join(Tokens(ring)) + " Z"
  }

  function Texts(rings: seq<Ring>): string {
    if rings == [] then "" else RingText(rings[0]) + Texts(rings[1..])
  }

  /** Each part's exterior, then its holes. */
  function AllRings(parts: seq<Part>): seq<Ring> {
    if parts == [] then []
    else AllRings(parts[..|parts| - 1]) + [parts[|parts| - 1].exterior] + parts[|parts| - 1].holes
  }

  lemma Joined(a: string, b: string, c: string)
    ensures a + (b + c) == (a + b) + c
  {
  }

  lemma {:induction false} TextsAppend(a: seq<Ring>, b: seq<Ring>)
    ensures Texts(a + b) == Texts(a) + Texts(b)
  {
    hide RingText;
    if a == [] {
      assert a + b == b;
    } else {
      TextsAppend(a[1..], b);
      Joined(RingText(a[0]), Texts(a[1..]), Texts(b));
      assert (a + b)[1..] == a[1..] + b && (a + b)[0] == a[0];
    }
  }

  lemma TextsPush(a: seq<Ring>, ring: Ring)
    ensures Texts(a + [ring]) == Texts(a) + RingText(ring)
  {
    hide RingText;
    TextsAppend(a, [ring]);
    assert Texts([ring]) == RingText(ring) + "";
  }

  method DumpPart(chunks: string, p: Part, ghost before: seq<Ring>) returns (d: string)
    requires chunks == Texts(before)
    ensures d == Texts(before + [p.exterior] + p.holes)
  {
    hide RingText, Texts;
    d := chunks + RingText(p.exterior);
    TextsPush(before, p.exterior);
    assert before + [p.exterior] + p.holes[..0] == before + [p.exterior];
    for k := 0 to |p.holes|
      invariant d == Texts(before + [p.exterior] + p.holes[..k])
    {
      d := d + RingText(p.holes[k]);
      TextsPush(before + [p.exterior] + p.holes[..k], p.holes[k]);
      assert before + [p.exterior] + p.holes[..k + 1] == before + [p.exterior] + p.holes[..k] + [p.holes[k]];
    }
    assert p.holes[..|p.holes|] == p.holes;
  }

  /** The same walk when it goes the right way round, else the walk from the same vertex backwards. */
  predicate Walk(ring: Ring, right: bool, walked: Ring) {
    |walked| == |ring| &&
    forall i :: 0 <= i < |ring| ==> walked[i] == ring[if right || i == 0 then i else |ring| - i]
  }

  /** Part q is p with its exterior walked counter-clockwise and its holes clockwise. */
  predicate WalkedPart(p: Part, q: Part) {
    Walk(p.exterior, Area2(p.exterior) >= 0.0, q.exterior) && |q.holes| == |p.holes| &&
    forall k :: 0 <= k < |p.holes| ==> Walk(p.holes[k], Area2(p.holes[k]) <= 0.0, q.holes[k])
  }

  predicate WalkedAll(parts: seq<Part>, walked: seq<Part>) {
    |walked| == |parts| && forall i :: 0 <= i < |parts| ==> WalkedPart(parts[i], walked[i])
  }

  lemma FlipWalks(ring: Ring, right: bool)
    ensures Walk(ring, right, if right then ring else Flip(ring))
  {
    hide Flip;
    FlipAt(ring);
  }

  lemma WalkOnce(ring: Ring, right: bool, a: Ring, b: Ring)
    requires Walk(ring, right, a) && Walk(ring, right, b)
    ensures a == b
  {
  }

  lemma OrientWalked(p: Part)
    ensures WalkedPart(p, Orient(p))
  {
    hide Area2, Flip, Walk;
    FlipWalks(p.exterior, Area2(p.exterior) >= 0.0);
    forall k | 0 <= k < |p.holes| ensures Walk(p.holes[k], Area2(p.holes[k]) <= 0.0, Orient(p).holes[k]) {
      FlipWalks(p.holes[k], Area2(p.holes[k]) <= 0.0);
    }
  }

  lemma WalkedOnce(p: Part, q: Part, r: Part)
    requires WalkedPart(p, q) && WalkedPart(p, r)
    ensures q == r
  {
    hide Area2, Walk;
    WalkOnce(p.exterior, Area2(p.exterior) >= 0.0, q.exterior, r.exterior);
    forall k | 0 <= k < |p.holes| ensures q.holes[k] == r.holes[k] {
      WalkOnce(p.holes[k], Area2(p.holes[k]) <= 0.0, q.holes[k], r.holes[k]);
    }
  }

  /** Orienting is the one way to walk the rings as they should be. */
  lemma OrientWalks(parts: seq<Part>, q: seq<Part>)
    ensures WalkedAll(parts, q) <==> q == OrientAll(parts)
  {
    hide WalkedPart, Orient;
    forall i | 0 <= i < |parts| ensures WalkedPart(parts[i], Orient(parts[i])) {
      OrientWalked(parts[i]);
    }
    if WalkedAll(parts, q) {
      forall i | 0 <= i < |parts| ensures q[i] == Orient(parts[i]) {
        WalkedOnce(parts[i], q[i], Orient(parts[i]));
      }
    }
  }

  /** What the text is, whatever the parts; and what reading it gives, when they are on the grid, have three points or
      more in every ring and some area in every exterior: the parts as they are walked, and no other. */
  lemma DumpsReads(parts: seq<Part>, d: string)
    requires d == Texts(AllRings(OrientAll(parts)))
    ensures exists q :: WalkedAll(parts, q) && d == Texts(AllRings(q))
    ensures OnGrid(parts) && Sound(parts) ==> Parsed(d).Some? && WalkedAll(parts, Parsed(d).value)
  {
    hide Texts, AllRings, WalkedAll, OrientAll, Parsed, OnGrid, Sound;
    OrientWalks(parts, OrientAll(parts));
    if OnGrid(parts) && Sound(parts) {
      DumpsRoundTrip(parts);
    }
  }

  /** Writes the parts in the order given, each oriented: every ring is written as it is if it goes the right way round,
      else backwards from its first vertex. */
  method Dumps(parts: seq<Part>) returns (d: string)
    ensures d == Texts(AllRings(OrientAll(parts)))
    ensures exists q :: WalkedAll(parts, q) && d == Texts(AllRings(q))
    ensures OnGrid(parts) && Sound(parts) ==> Parsed(d).Some? && WalkedAll(parts, Parsed(d).value)
  {
    hide RingText, Orient, WalkedAll, OnGrid, Sound, Parsed;
    DumpsReads(parts, Texts(AllRings(OrientAll(parts))));
    d := "";
    ghost var all := OrientAll(parts);
    for i := 0 to |parts|
      invariant d == Texts(AllRings(all[..i]))
    {
      d := DumpPart(d, Orient(parts[i]), AllRings(all[..i]));
      assert all[..i + 1][..i] == all[..i];
    }
    assert all[..|parts|] == all;
  }

  // ------------------------------------------------------------------ parsing

  /** The white space of the pattern and of split: the six usual characters and the four separators. */
  predicate IsSpace(c: char) {
    9 <= c as int <= 13 || 28 <= c as int <= 32
  }

  predicate Blank(s: string) {
    forall i :: 0 <= i < |s| ==> IsSpace(s[i])
  }

  /** The length of the leading run of characters that are not white space. */
  function Word(s: string): (k: nat)
    ensures k <= |s|
  {
    if s == [] || IsSpace(s[0]) then 0 else 1 + Word(s[1..])
  }

  function Split(s: string): seq<string>
    decreases |s|
  {
    if s == [] then []
    else if IsSpace(s[0]) then Split(s[1..])
    else [s[..Word(s)]] + Split(s[Word(s)..])
  }

  datatype Match = Match(numbers: seq<string>, length: nat)

  /** A ring at the very start of s: M, one or more numbers separated by white space, Z. */
  function MatchHere(s: string): (m: Option<Match>)
    ensures m.Some? ==> 0 < m.value.length <= |s|
  {
    if s == [] || s[0] != 'M' then None else
      var z := IndexOf(s, 'Z');
      if z == |s| then None else
        var numbers := Split(s[1..z]);
        if numbers != [] && forall i :: 0 <= i < |numbers| ==> IsNumber(numbers[i]) then Some(Match(numbers, z + 1))
        else None
  }

  /** The leftmost place where a ring matches. */
  function Find(s: string): (at: Option<nat>)
    ensures at.Some? ==> at.value < |s| && MatchHere(s[at.value..]).Some?
  {
    if s == [] then None
    else if MatchHere(s).Some? then
      assert s[0..] == s;
      Some(0)
    else
      var rest := Find(s[1..]);
      if rest.Some? then
        assert s[1..][rest.value..] == s[rest.value + 1..];
        Some(rest.value + 1)
      else None
  }

  function Points(numbers: seq<string>): Ring {
    if |numbers| < 2 then [] else [(NumberValue(numbers[0]), NumberValue(numbers[1]))] + Points(numbers[2..])
  }

  function After(found: seq<Ring>, tail: Option<seq<Ring>>): Option<seq<Ring>> {
    match tail
    case None => None
    case Some(rest) => Some(found + rest)
  }

  lemma AfterBoth(found: seq<Ring>, ring: Ring, tail: Option<seq<Ring>>)
    ensures After(found + [ring], tail) == After(found, After([ring], tail))
  {
    if tail.Some? {
      assert found + [ring] + tail.value == found + ([ring] + tail.value);
    }
  }

  lemma AfterNothing(tail: Option<seq<Ring>>)
    ensures After([], tail) == tail
  {
    if tail.Some? {
      assert [] + tail.value == tail.value;
    }
  }

  /** The rings of a text, or nothing where the program raises an error. */
  function Rings(d: string): Option<seq<Ring>>
    decreases |d|
  {
    match Find(d)
    case None => if d == [] then Some([]) else None
    case Some(at) =>
      var m := MatchHere(d[at..]).value;
      if !Blank(d[..at]) || |m.numbers| < 6 || |m.numbers| % 2 == 1 then None else
        After([Points(m.numbers)], Rings(d[at + m.length..]))
  }

  /** A ring of positive area starts a part; any other is a hole of the last part. */
  function Group(rings: seq<Ring>): Option<seq<Part>> {
    if rings == [] then Some([]) else
      match Group(rings[..|rings| - 1])
      case None => None
      case Some(parts) =>
        var ring := rings[|rings| - 1];
        if Area2(ring) > 0.0 then Some(parts + [Part(ring, [])])
        else if parts != [] then
          var last := parts[|parts| - 1];
          Some(parts[..|parts| - 1] + [Part(last.exterior, last.holes + [ring])])
        else None
  }

  function Parsed(d: string): Option<seq<Part>> {
    match Rings(d)
    case None => None
    case Some(rings) => Group(rings)
  }

  method ParseRings(d: string) returns (rings: Option<seq<Ring>>)
    ensures rings == Rings(d)
  {
    hide MatchHere, Find, Points, Blank;
    var found := [];
    var pos := 0;
    var at := Find(d);
    assert d[0..] == d;
    AfterNothing(Rings(d));
    while at.Some?
      invariant 0 <= pos <= |d| && at == Find(d[pos..])
      invariant Rings(d) == After(found, Rings(d[pos..]))
      decreases |d| - pos
    {
      var start := pos + at.value;
      assert d[pos..][at.value..] == d[start..] && d[pos..][..at.value] == d[pos..start];
      var m := MatchHere(d[start..]).value;
      if !Blank(d[pos..start]) {
        return None;
      }
      if |m.numbers| < 6 || |m.numbers| % 2 == 1 {
        return None;
      }
      assert d[pos..][at.value + m.length..] == d[start + m.length..];
      AfterBoth(found, Points(m.numbers), Rings(d[start + m.length..]));
      pos := start + m.length;
      found := found + [Points(m.numbers)];
      at := Find(d[pos..]);
    }
    assert found + [] == found;
    return if pos != |d| then None else Some(found);
  }

  method ParsePath(d: string) returns (parts: Option<seq<Part>>)
    ensures parts == Parsed(d)
  {
    hide Area2, Rings;
    var rings := ParseRings(d);
    if rings == None {
      return None;
    }
    var all := rings.value;
    var done: seq<Part> := [];
    for i := 0 to |all|
      invariant Group(all[..i]) == Some(done)
    {
      var area := SignedArea(all[i]);
      assert all[..i + 1][..i] == all[..i];
      if area > 0.0 {
        done := done + [Part(all[i], [])];
      } else if done != [] {
        var last := done[|done| - 1];
        done := done[..|done| - 1] + [Part(last.exterior, last.holes + [all[i]])];
      } else {
        GroupFails(all, i + 1);
        return None;
      }
    }
    assert all[..|all|] == all;
    return Some(done);
  }

  lemma {:induction false} GroupFails(rings: seq<Ring>, k: nat)
    requires k <= |rings| && Group(rings[..k]) == None
    ensures Group(rings) == None
  {
    if k == |rings| {
      assert rings[..k] == rings;
    } else {
      assert rings[..|rings| - 1][..k] == rings[..k];
      GroupFails(rings[..|rings| - 1], k);
    }
  }

  // -------------------------------------------------------------- round trip

  function SnapRing(ring: Ring): (r: Ring)
    ensures |r| == |ring|
  {
    if ring == [] then [] else [(Snap(ring[0].0), Snap(ring[0].1))] + SnapRing(ring[1..])
  }

  function SnapRings(rings: seq<Ring>): (r: seq<Ring>)
    ensures |r| == |rings| && forall i :: 0 <= i < |r| ==> r[i] == SnapRing(rings[i])
  {
    seq(|rings|, i requires 0 <= i < |rings| => SnapRing(rings[i]))
  }

  /** Every coordinate moved to the grid. */
  function SnapAll(parts: seq<Part>): (r: seq<Part>)
    ensures |r| == |parts|
    ensures forall i :: 0 <= i < |r| ==> r[i] == Part(SnapRing(parts[i].exterior), SnapRings(parts[i].holes))
  {
    seq(|parts|, i requires 0 <= i < |parts| => Part(SnapRing(parts[i].exterior), SnapRings(parts[i].holes)))
  }

  /** What the reader can tell apart: exteriors have positive area, holes do not. */
  predicate Told(p: Part) {
    Area2(p.exterior) > 0.0 && forall i :: 0 <= i < |p.holes| ==> Area2(p.holes[i]) <= 0.0
  }

  predicate AllTold(parts: seq<Part>) {
    forall i :: 0 <= i < |parts| ==> Told(parts[i])
  }

  predicate Long(rings: seq<Ring>) {
    forall i :: 0 <= i < |rings| ==> |rings[i]| >= 3
  }

  lemma NumberChars(s: string)
    requires IsNumber(s)
    ensures s != [] && forall i :: 0 <= i < |s| ==> !IsSpace(s[i]) && s[i] != 'Z'
  {
    var u := if s[0] == '-' then s[1..] else s;
    var p := IndexOf(u, '.');
    forall i | 0 <= i < |u| ensures IsDigit(u[i]) || u[i] == '.' {
      assert i < p ==> u[i] == u[..p][i];
      assert i > p ==> u[i] == u[p + 1..][i - p - 1];
    }
    forall i | 0 <= i < |s| ensures !IsSpace(s[i]) && s[i] != 'Z' {
      assert s[0] == '-' && i > 0 ==> s[i] == u[i - 1];
    }
  }

  /** The numbers, each preceded by a space, and a space. */
  function Spaced(ts: seq<string>): string {
    if ts == [] then " " else " " + (ts[0] + Spaced(ts[1..]))
  }

  predicate AllNumbers(ts: seq<string>) {
    forall i :: 0 <= i < |ts| ==> IsNumber(ts[i])
  }

  lemma {:induction false} JoinSpaced(ts: seq<string>)
    requires ts != []
    ensures " " + Join(ts) + " " == Spaced(ts)
  {
    if |ts| == 1 {
      assert ts[1..] == [];
    } else {
      JoinSpaced(ts[1..]);
      assert " " + Join(ts) + " " == " " + (ts[0] + (" " + Join(ts[1..]) + " "));
    }
  }

  lemma {:induction false} WordOf(t: string, rest: string)
    requires (forall i :: 0 <= i < |t| ==> !IsSpace(t[i])) && rest != [] && IsSpace(rest[0])
    ensures Word(t + rest) == |t|
  {
    if t == [] {
      assert t + rest == rest;
    } else {
      WordOf(t[1..], rest);
      assert (t + rest)[1..] == t[1..] + rest;
    }
  }

  /** Splitting the printed numbers gives the numbers. */
  lemma {:induction false} SplitSpaced(ts: seq<string>)
    requires AllNumbers(ts)
    ensures Split(Spaced(ts)) == ts
  {
    hide IsNumber;
    if ts == [] {
      assert " "[1..] == [];
    } else {
      var rest := Spaced(ts[1..]);
      NumberChars(ts[0]);
      WordOf(ts[0], rest);
      SplitSpaced(ts[1..]);
      var s := ts[0] + rest;
      assert Spaced(ts)[1..] == s;
      assert s[..|ts[0]|] == ts[0] && s[|ts[0]|..] == rest;
      assert s[0] == ts[0][0];
    }
  }

  lemma {:induction false} SpacedHasNoZ(ts: seq<string>)
    requires AllNumbers(ts)
    ensures 'Z' !in Spaced(ts)
  {
    hide IsNumber;
    if ts != [] {
      NumberChars(ts[0]);
      SpacedHasNoZ(ts[1..]);
      assert 'Z' !in ts[0];
    }
  }

  lemma {:induction false} TokensRound(ring: Ring)
    ensures AllNumbers(Tokens(ring)) && |Tokens(ring)| == 2 * |ring|
    ensures Points(Tokens(ring)) == SnapRing(ring)
  {
    hide IsNumber, NumberValue, FormatNumber, Snap;
    if ring != [] {
      NumberRound(ring[0].0);
      NumberRound(ring[0].1);
      TokensRound(ring[1..]);
      assert Tokens(ring)[2..] == Tokens(ring[1..]);
    }
  }

  /** The printed ring is matched whole, with its own numbers. */
  lemma RingMatches(ring: Ring, rest: string)
    requires ring != []
    ensures MatchHere(RingText(ring) + rest) == Some(Match(Tokens(ring), |RingText(ring)|))
  {
    hide Split, Tokens, Join, Spaced, IsNumber, IndexOf;
    var ts := Tokens(ring);
    TokensRound(ring);
    JoinSpaced(ts);
    SplitSpaced(ts);
    SpacedHasNoZ(ts);
    var body := "M" + Spaced(ts);
    assert RingText(ring) == "M" + (" " + Join(ts) + " ") + "Z";
    var s := RingText(ring) + rest;
    assert s == body + ("Z" + rest);
    IndexAfter(body, "Z" + rest, 'Z');
    assert s[1..|body|] == Spaced(ts);
    assert s[0] == 'M';
  }

  /** Reading the printed rings gives their grid images. */
  lemma {:induction false} RingsRound(rings: seq<Ring>)
    requires Long(rings)
    ensures Rings(Texts(rings)) == Some(SnapRings(rings))
  {
    hide MatchHere, RingText, Tokens, Points, SnapRing;
    if rings == [] {
      assert Find(Texts(rings)) == None;
    } else {
      var ring, rest := rings[0], Texts(rings[1..]);
      var d := RingText(ring) + rest;
      RingMatches(ring, rest);
      TokensRound(ring);
      RingsRound(rings[1..]);
      assert d[0..] == d && d[..0] == [] && d[|RingText(ring)|..] == rest;
      assert Find(d) == Some(0);
      assert SnapRings(rings) == [SnapRing(ring)] + SnapRings(rings[1..]);
    }
  }

  // ------------------------------------------------------------ refused texts

  /** White space, then a ring: M, numbers separated by white space, Z. */
  datatype Piece = Piece(gap: string, body: string)

  function PieceText(p: Piece): string {
    p.gap + ("M" + p.body + "Z")
  }

  function Flat(pieces: seq<Piece>): string {
    if pieces == [] then "" else PieceText(pieces[0]) + Flat(pieces[1..])
  }

  /** A ring the reader takes: six numbers or more, an even number of them, and nothing else. */
  predicate Readable(p: Piece) {
    Blank(p.gap) && 'Z' !in p.body && AllNumbers(Split(p.body)) && |Split(p.body)| >= 6 && |Split(p.body)| % 2 == 0
  }

  predicate AllReadable(pieces: seq<Piece>) {
    forall i :: 0 <= i < |pieces| ==> Readable(pieces[i])
  }

  function PieceRings(pieces: seq<Piece>): seq<Ring> {
    if pieces == [] then [] else [Points(Split(pieces[0].body))] + PieceRings(pieces[1..])
  }

  lemma {:induction false} FindAfter(gap: string, rest: string)
    requires Blank(gap) && MatchHere(rest).Some?
    ensures Find(gap + rest) == Some(|gap|)
  {
    hide MatchHere;
    if gap == [] {
      assert gap + rest == rest;
    } else {
      FindAfter(gap[1..], rest);
      assert (gap + rest)[1..] == gap[1..] + rest && IsSpace((gap + rest)[0]);
      NoMatch(gap + rest);
    }
  }

  lemma NoMatch(s: string)
    requires s != [] && IsSpace(s[0])
    ensures MatchHere(s) == None
  {
  }

  /** A piece is matched with its own numbers, right after its gap. */
  lemma PieceFound(p: Piece, rest: string)
    requires Readable(p)
    ensures Find(PieceText(p) + rest) == Some(|p.gap|)
    ensures MatchHere((PieceText(p) + rest)[|p.gap|..]) == Some(Match(Split(p.body), |p.body| + 2))
  {
    hide Split, IsNumber, Find;
    var front, chunk := "M" + p.body, "M" + p.body + "Z" + rest;
    assert chunk == front + ("Z" + rest);
    IndexAfter(front, "Z" + rest, 'Z');
    assert chunk[1..|front|] == p.body && chunk[0] == 'M';
    FindAfter(p.gap, chunk);
    assert PieceText(p) + rest == p.gap + chunk;
  }

  /** What a match says of the text it was found in. */
  lemma MatchIs(s: string)
    requires MatchHere(s).Some?
    ensures var m := MatchHere(s).value; m.length >= 2 && s[0] == 'M' && s[m.length - 1] == 'Z' &&
                                         'Z' !in s[1..m.length - 1] && m.numbers == Split(s[1..m.length - 1]) &&
                                         AllNumbers(m.numbers)
  {
    hide Split, IsNumber;
  }

  /** Texts of readable pieces are read, each piece as a ring. */
  lemma {:induction false} PiecesRead(pieces: seq<Piece>)
    requires AllReadable(pieces)
    ensures Rings(Flat(pieces)) == Some(PieceRings(pieces))
  {
    hide MatchHere, Split, Points, Readable, Find;
    if pieces == [] {
      assert Find("") == None by {
        NothingFound();
      }
    } else {
      var p, rest := pieces[0], Flat(pieces[1..]);
      var d := PieceText(p) + rest;
      assert Readable(p);
      PieceFound(p, rest);
      PiecesRead(pieces[1..]);
      assert d[|p.gap| + (|p.body| + 2)..] == rest && d[..|p.gap|] == p.gap;
      ReadableParts(p);
    }
  }

  lemma NothingFound()
    ensures Find("") == None
  {
  }

  lemma ReadableParts(p: Piece)
    requires Readable(p)
    ensures Blank(p.gap) && |Split(p.body)| >= 6 && |Split(p.body)| % 2 == 0
  {
  }

  /** What is read first is a readable piece. */
  lemma FirstPiece(d: string) returns (p: Piece, rest: string)
    requires d != [] && Rings(d).Some?
    ensures Readable(p) && d == PieceText(p) + rest && |rest| < |d| && Rings(rest).Some?
  {
    hide MatchHere, Split, Points, Readable, Find, Blank;
    var at := Find(d).value;
    var m := MatchHere(d[at..]).value;
    MatchIs(d[at..]);
    rest := d[at + m.length..];
    p := Piece(d[..at], d[at..][1..m.length - 1]);
    IsReadable(p, m);
    var chunk := d[at..][..m.length];
    assert chunk == "M" + p.body + "Z";
    assert d == d[..at] + (chunk + rest);
    Joined(d[..at], chunk, rest);
  }

  lemma {:induction false} RingsPieces(d: string)
    requires Rings(d).Some?
    ensures exists pieces: seq<Piece> :: AllReadable(pieces) && d == Flat(pieces)
    decreases |d|
  {
    hide Rings, Readable, PieceText;
    if d == [] {
      var none: seq<Piece> := [];
      assert AllReadable(none) && d == Flat(none);
    } else {
      var p, rest := FirstPiece(d);
      RingsPieces(rest);
      var others: seq<Piece> :| AllReadable(others) && rest == Flat(others);
      var pieces := [p] + others;
      assert pieces[1..] == others;
      assert AllReadable(pieces) && d == Flat(pieces);
    }
  }

  /** A text is read exactly when it consists of readable pieces, with nothing but white space before each ring and
      nothing at all after the last. */
  lemma RingsExact(d: string)
    ensures Rings(d).Some? <==> exists pieces: seq<Piece> :: AllReadable(pieces) && d == Flat(pieces)
  {
    hide Rings, AllReadable, Flat;
    if Rings(d).Some? {
      RingsPieces(d);
    }
    forall pieces: seq<Piece> | AllReadable(pieces) && d == Flat(pieces) ensures Rings(d).Some? {
      PiecesRead(pieces);
    }
  }

  lemma IsReadable(p: Piece, m: Match)
    requires Blank(p.gap) && 'Z' !in p.body && m.numbers == Split(p.body) && AllNumbers(m.numbers)
    requires |m.numbers| >= 6 && |m.numbers| % 2 == 0
    ensures Readable(p)
  {
  }

  /** Rings can be grouped exactly when there are none or the first has positive area. */
  lemma {:induction false} GroupExact(rings: seq<Ring>)
    ensures Group(rings).Some? <==> rings == [] || Area2(rings[0]) > 0.0
    ensures Group(rings).Some? && rings != [] ==> Group(rings).value != []
  {
    hide Area2;
    if |rings| > 1 {
      GroupExact(rings[..|rings| - 1]);
    } else if |rings| == 1 {
      assert rings[..0] == [];
    }
  }

  /** The texts that parse, all of them: readable pieces whose first ring, if any, has positive area. */
  lemma ParsedExact(d: string)
    ensures Parsed(d).Some? <==> exists pieces: seq<Piece> :: AllReadable(pieces) && d == Flat(pieces) &&
                                                  (pieces != [] ==> Area2(Points(Split(pieces[0].body))) > 0.0)
  {
    hide Rings, Group, Area2, Points, Split, AllReadable, Flat;
    RingsExact(d);
    if Rings(d).Some? {
      GroupExact(Rings(d).value);
    }
    if Parsed(d).Some? {
      var pieces: seq<Piece> :| AllReadable(pieces) && d == Flat(pieces);
      PiecesRead(pieces);
    }
    forall pieces: seq<Piece> | AllReadable(pieces) && d == Flat(pieces) &&
                    (pieces != [] ==> Area2(Points(Split(pieces[0].body))) > 0.0)
      ensures Parsed(d).Some?
    {
      PiecesRead(pieces);
    }
  }

  /** Every ring read has at least three points. */
  lemma {:induction false} RingsLong(d: string)
    ensures Rings(d).Some? ==> Long(Rings(d).value)
    decreases |d|
  {
    hide MatchHere, Find, Points;
    var at := Find(d);
    if at.Some? {
      var m := MatchHere(d[at.value..]).value;
      RingsLong(d[at.value + m.length..]);
      PointsLength(m.numbers);
    }
  }

  lemma {:induction false} PointsLength(numbers: seq<string>)
    ensures |Points(numbers)| == |numbers| / 2
  {
    if |numbers| >= 2 {
      PointsLength(numbers[2..]);
    }
  }

  lemma {:induction false} AllRingsPush(parts: seq<Part>, p: Part)
    ensures AllRings(parts + [p]) == AllRings(parts) + [p.exterior] + p.holes
  {
    assert (parts + [p])[..|parts|] == parts;
  }

  lemma ToldAlone(ring: Ring)
    requires Area2(ring) > 0.0
    ensures Told(Part(ring, []))
  {
    hide Area2;
  }

  /** Grouping never invents, loses or moves a ring, and every part it builds can be told. */
  lemma {:induction false} GroupSound(rings: seq<Ring>)
    requires Group(rings).Some?
    ensures AllRings(Group(rings).value) == rings && AllTold(Group(rings).value)
  {
    hide Area2;
    if rings != [] {
      var n := |rings| - 1;
      hide AllRings, Told;
      GroupSound(rings[..n]);
      var parts, ring := Group(rings[..n]).value, rings[n];
      if Area2(ring) > 0.0 {
        AllRingsPush(parts, Part(ring, []));
        assert AllRings(parts) + [ring] + [] == rings;
        assert AllTold(parts + [Part(ring, [])]) by {
          ToldAlone(ring);
        }
      } else {
        HolePushed(parts, ring);
        assert rings[..n] + [ring] == rings;
      }
    }
  }

  lemma HolePushed(parts: seq<Part>, ring: Ring)
    requires parts != [] && AllTold(parts) && Area2(ring) <= 0.0
    ensures var last := parts[|parts| - 1];
            var more := parts[..|parts| - 1] + [Part(last.exterior, last.holes + [ring])];
            AllTold(more) && AllRings(more) == AllRings(parts) + [ring]
  {
    hide Area2;
    var front, last := parts[..|parts| - 1], parts[|parts| - 1];
    AllRingsPush(front, Part(last.exterior, last.holes + [ring]));
    assert AllRings(front) + [last.exterior] + (last.holes + [ring]) == AllRings(parts) + [ring];
    assert Told(last);
  }

  lemma GroupHole(before: seq<Ring>, parts: seq<Part>, last: Part, ring: Ring)
    requires Group(before) == Some(parts + [last]) && Area2(ring) <= 0.0
    ensures Group(before + [ring]) == Some(parts + [Part(last.exterior, last.holes + [ring])])
  {
    hide Area2;
    assert (before + [ring])[..|before|] == before;
    assert (parts + [last])[..|parts|] == parts;
  }

  lemma GroupExterior(before: seq<Ring>, parts: seq<Part>, ring: Ring)
    requires Group(before) == Some(parts) && Area2(ring) > 0.0
    ensures Group(before + [ring]) == Some(parts + [Part(ring, [])])
  {
    hide Area2;
    assert (before + [ring])[..|before|] == before;
  }

  lemma {:induction false} GroupHoles(before: seq<Ring>, parts: seq<Part>, exterior: Ring, holes: seq<Ring>)
    requires Group(before) == Some(parts) && Told(Part(exterior, holes))
    ensures Group(before + [exterior] + holes) == Some(parts + [Part(exterior, holes)])
    decreases |holes|
  {
    hide Area2, Group;
    GroupExterior(before, parts, exterior);
    if holes == [] {
      assert before + [exterior] + holes == before + [exterior];
    } else {
      var front, ring := holes[..|holes| - 1], holes[|holes| - 1];
      GroupHoles(before, parts, exterior, front);
      GroupHole(before + [exterior] + front, parts, Part(exterior, front), ring);
      assert before + [exterior] + holes == before + [exterior] + front + [ring];
      assert front + [ring] == holes;
    }
  }

  lemma {:induction false} GroupComplete(parts: seq<Part>)
    requires AllTold(parts)
    ensures Group(AllRings(parts)) == Some(parts)
  {
    hide Area2, Told;
    if parts != [] {
      var front, last := parts[..|parts| - 1], parts[|parts| - 1];
      GroupComplete(front);
      GroupHoles(AllRings(front), front, last.exterior, last.holes);
      assert parts == front + [Part(last.exterior, last.holes)];
    }
  }

  lemma {:induction false} AllRingsSnap(parts: seq<Part>)
    ensures AllRings(SnapAll(parts)) == SnapRings(AllRings(parts))
  {
    hide SnapRing;
    if parts != [] {
      var n := |parts| - 1;
      AllRingsSnap(parts[..n]);
      assert SnapAll(parts)[..n] == SnapAll(parts[..n]);
    }
  }

  /** The reader inverts the printer, up to the grid, exactly on the part lists whose rings have three points or more
      and whose exteriors, once on the grid, have positive area and holes do not. */
  lemma ParseInvertsPrint(parts: seq<Part>)
    ensures Parsed(Texts(AllRings(parts))) == Some(SnapAll(parts)) <==> Long(AllRings(parts)) && AllTold(SnapAll(parts))
  {
    hide Texts, Rings, Group, AllRings, Told;
    var rings := AllRings(parts);
    AllRingsSnap(parts);
    if Long(rings) && AllTold(SnapAll(parts)) {
      RingsRound(rings);
      GroupComplete(SnapAll(parts));
    }
    if Parsed(Texts(rings)) == Some(SnapAll(parts)) {
      var read := Rings(Texts(rings)).value;
      GroupSound(read);
      RingsLong(Texts(rings));
      assert read == SnapRings(rings);
      assert forall i :: 0 <= i < |rings| ==> |rings[i]| == |read[i]|;
    }
  }

  // ---------------------------------------------------- text of oriented parts

  predicate GridRing(ring: Ring) {
    forall i :: 0 <= i < |ring| ==> Snap(ring[i].0) == ring[i].0 && Snap(ring[i].1) == ring[i].1
  }

  predicate OnGrid(parts: seq<Part>) {
    forall i :: 0 <= i < |parts| ==> GridRing(parts[i].exterior) && forall k :: 0 <= k < |parts[i].holes| ==>
      GridRing(parts[i].holes[k])
  }

  /** Every ring has three points or more and every exterior encloses some area. */
  predicate Sound(parts: seq<Part>) {
    forall i :: 0 <= i < |parts| ==> LongPart(parts[i]) && Area2(parts[i].exterior) != 0.0
  }

  predicate LongPart(p: Part) {
    |p.exterior| >= 3 && forall k :: 0 <= k < |p.holes| ==> |p.holes[k]| >= 3
  }

  lemma {:induction false} ReverseAt(s: seq<Point>)
    ensures |Reverse(s)| == |s| && forall i :: 0 <= i < |s| ==> Reverse(s)[i] == s[|s| - 1 - i]
  {
    if s != [] {
      ReverseAt(s[..|s| - 1]);
    }
  }

  lemma FlipKeeps(ring: Ring)
    ensures |Flip(ring)| == |ring| && (GridRing(ring) ==> GridRing(Flip(ring)))
  {
    FlipAt(ring);
  }

  lemma {:induction false} GridRingSnap(ring: Ring)
    requires GridRing(ring)
    ensures SnapRing(ring) == ring
  {
    if ring != [] {
      GridRingSnap(ring[1..]);
    }
  }

  /** Orienting gives the exterior positive area unless it has none, never leaves a hole with positive area, and keeps
      ring sizes and the grid. */
  lemma OrientTold(p: Part)
    ensures Told(Orient(p)) <==> Area2(p.exterior) != 0.0
    ensures LongPart(Orient(p)) <==> LongPart(p)
    ensures OnGrid([p]) ==> OnGrid([Orient(p)])
  {
    hide Area2, Flip, GridRing;
    var o := Orient(p);
    FlipNegates(p.exterior);
    FlipKeeps(p.exterior);
    forall k | 0 <= k < |p.holes|
      ensures Area2(o.holes[k]) <= 0.0 && |o.holes[k]| == |p.holes[k]| && (GridRing(p.holes[k]) ==>
                GridRing(o.holes[k]))
    {
      FlipNegates(p.holes[k]);
      FlipKeeps(p.holes[k]);
    }
    assert OnGrid([p]) ==> GridRing([p][0].exterior) && forall k :: 0 <= k < |p.holes| ==> GridRing([p][0].holes[k]);
  }

  lemma SnapGrid(parts: seq<Part>)
    requires OnGrid(parts)
    ensures SnapAll(parts) == parts
  {
    hide GridRing;
    forall i | 0 <= i < |parts| ensures SnapAll(parts)[i] == parts[i] {
      GridRingSnap(parts[i].exterior);
      forall k | 0 <= k < |parts[i].holes| ensures SnapRing(parts[i].holes[k]) == parts[i].holes[k] {
        GridRingSnap(parts[i].holes[k]);
      }
    }
  }

  lemma {:induction false} LongRings(parts: seq<Part>)
    ensures Long(AllRings(parts)) <==> forall i :: 0 <= i < |parts| ==> LongPart(parts[i])
  {
    if parts != [] {
      var n := |parts| - 1;
      var front, last := AllRings(parts[..n]), parts[n];
      LongRings(parts[..n]);
      LongConcat(front, last);
      assert forall i :: 0 <= i < n ==> parts[..n][i] == parts[i];
    }
  }

  lemma LongConcat(front: seq<Ring>, last: Part)
    ensures Long(front + [last.exterior] + last.holes) <==> Long(front) && LongPart(last)
  {
    var all := front + [last.exterior] + last.holes;
    var n := |front|;
    assert all[n] == last.exterior;
    assert forall i :: 0 <= i < n ==> all[i] == front[i];
    assert forall k :: 0 <= k < |last.holes| ==> last.holes[k] == all[n + 1 + k];
    assert forall i :: n < i < |all| ==> all[i] == last.holes[i - n - 1];
  }

  /** On grid coordinates the reader returns exactly the oriented parts, in order, each hole on its own part, if and
      only if every ring has three points and every exterior has non-zero area. */
  lemma DumpsRoundTrip(parts: seq<Part>)
    requires OnGrid(parts)
    ensures Parsed(Texts(AllRings(OrientAll(parts)))) == Some(OrientAll(parts)) <==> Sound(parts)
  {
    hide Parsed, Texts, AllRings, Orient, Told, LongPart, GridRing, Long;
    var all := OrientAll(parts);
    forall i | 0 <= i < |parts|
      ensures Told(all[i]) <==> Area2(parts[i].exterior) != 0.0
      ensures LongPart(all[i]) <==> LongPart(parts[i])
      ensures OnGrid([all[i]])
    {
      var p := parts[i];
      assert OnGrid([p]);
      OrientTold(p);
    }
    assert OnGrid(all) by {
      forall i | 0 <= i < |all| ensures OnGrid([all[i]]) && all[i] == [all[i]][0] {
      }
    }
    SnapGrid(all);
    LongRings(all);
    ParseInvertsPrint(all);
  }

  /** The text of a flat first ring is rejected. */
  lemma FlatUnread(ring: Ring)
    requires |ring| >= 3 && GridRing(ring) && Area2(ring) == 0.0
    ensures Parsed(Texts([ring])) == None
  {
    hide Texts, Rings, Area2, GridRing;
    RingsRound([ring]);
    GridRingSnap(ring);
    var rings := [ring];
    assert SnapRings(rings) == rings;
    assert rings[..0] == [];
    assert Group(rings[..0]) == Some([]);
    assert Group(rings) == None;
  }

  lemma FlatTriangle()
    ensures Area2([(0.0, 0.0), (1.0, 0.0), (2.0, 0.0)]) == 0.0
  {
    var ring: Ring := [(0.0, 0.0), (1.0, 0.0), (2.0, 0.0)];
    ClosedStep(ring, 0);
    ClosedStep(ring, 1);
    ClosedStep(ring, 2);
    assert Closed(ring)[..4] == Closed(ring);
  }

  /** A flat exterior is written but cannot be read back. */
  lemma FlatExterior()
    ensures var flat := [Part([(0.0, 0.0), (1.0, 0.0), (2.0, 0.0)], [])];
            Parsed(Texts(AllRings(OrientAll(flat)))) == None
  {
    hide Texts, Parsed, Area2;
    var ring: Ring := [(0.0, 0.0), (1.0, 0.0), (2.0, 0.0)];
    var flat := [Part(ring, [])];
    FlatTriangle();
    assert Orient(flat[0]) == flat[0];
    assert OrientAll(flat) == flat;
    assert AllRings(flat) == [ring] by {
      assert flat[..0] == [];
    }
    assert GridRing(ring);
    FlatUnread(ring);
  }

  lemma SnapTwice(v: real)
    ensures FormatNumber(Snap(v)) == FormatNumber(v)
  {
    hide DecimalText, Stripped;
    var n := Round(v * 100.0);
    assert Snap(v) * 100.0 == n as real;
    assert Round(n as real) == n;
  }

  lemma {:induction false} TokensSnap(ring: Ring)
    ensures Tokens(SnapRing(ring)) == Tokens(ring)
  {
    hide FormatNumber, Snap;
    if ring != [] {
      SnapTwice(ring[0].0);
      SnapTwice(ring[0].1);
      TokensSnap(ring[1..]);
    }
  }

  lemma {:induction false} TextsSnap(rings: seq<Ring>)
    ensures Texts(SnapRings(rings)) == Texts(rings)
  {
    hide SnapRing, Tokens;
    if rings != [] {
      TokensSnap(rings[0]);
      TextsSnap(rings[1..]);
      assert SnapRings(rings)[1..] == SnapRings(rings[1..]);
    }
  }

  /** The text is canonical: two lists of parts that the reader can tell have the same text exactly when they agree on
      the grid. */
  lemma CanonicalText(a: seq<Part>, b: seq<Part>)
    requires Long(AllRings(a)) && AllTold(SnapAll(a)) && Long(AllRings(b)) && AllTold(SnapAll(b))
    ensures Texts(AllRings(a)) == Texts(AllRings(b)) <==> SnapAll(a) == SnapAll(b)
  {
    hide Parsed, Texts, AllRings, SnapAll, Long, AllTold;
    ParseInvertsPrint(a);
    ParseInvertsPrint(b);
    AllRingsSnap(a);
    AllRingsSnap(b);
    TextsSnap(AllRings(a));
    TextsSnap(AllRings(b));
  }
}
