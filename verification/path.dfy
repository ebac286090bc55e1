/**
 * Path expressions (path/path.go): the grammar, the parser, the printer and
 * `Append`.
 *
 *   path    := segment ("." segment)*
 *   segment := name | name "[" index "]" | name "[" digits? ":" digits? "]"
 *   name    := [A-Za-z0-9_-]+            index := [A-Za-z0-9_-]+
 *
 * An index made of digits only is numeric, any other index is named. A range
 * bound that is left out is `Undefined`.
 */
module Paths {
  import opened Wrappers
  import opened Strings

  /** The bound of a range written without digits on that side. */
  const Undefined: int := -1

  /** The largest value `strconv.Atoi` accepts (Go's `int` is 64 bits wide). */
  const MaxInt: int := 0x7FFF_FFFF_FFFF_FFFF

  datatype Index = Numeric(n: int) | Named(text: string)

  datatype SegmentKind = Plain | Indexed(index: Index) | Ranged(from: int, to: int)

  datatype Segment = Segment(name: string, kind: SegmentKind)

  /** Segments in root-to-leaf order; the empty path denotes the root. */
  type Path = seq<Segment>

  datatype ParseError =
    | InvalidSegment(token: string, path: string)
    | InvalidRange(path: string, from: string, to: string)
    | InvalidNumericIndex(path: string, digits: string)

  predicate IsEmpty(p: Path) {
    |p| == 0
  }

  // ------------------------------------------------------ the three segment grammars

  /**
   * `^([\w-]+)\[(\d*):(\d*)\]$`: the name, and the digits before and after the colon.
   * A name holds no `[`, so the name ends at the first one.
   */
  function MatchRange(tok: string): (r: Option<(string, string, string)>)
    ensures r.Some? ==> IsName(r.value.0) && AllDigits(r.value.1) && AllDigits(r.value.2)
    ensures r.Some? ==> tok == r.value.0 + "[" + r.value.1 + ":" + r.value.2 + "]"
  {
    match IndexOf(tok, '[')
    case None => None
    case Some(i) =>
      if !IsName(tok[..i]) || |tok| < i + 2 || tok[|tok| - 1] != ']' then None
      else
        var inner := tok[i + 1..|tok| - 1];
        match MatchBounds(inner)
        case None => None
        case Some((a, b)) =>
          assert tok == tok[..i] + "[" + inner + "]";
          Some((tok[..i], a, b))
  }

  /** `(\d*):(\d*)` between the brackets: digits hold no colon, so the first one splits. */
  function MatchBounds(inner: string): (r: Option<(string, string)>)
    ensures r.Some? ==> AllDigits(r.value.0) && AllDigits(r.value.1) && inner == r.value.0 + ":" + r.value.1
  {
    match IndexOf(inner, ':')
    case None => None
    case Some(j) =>
      if AllDigits(inner[..j]) && AllDigits(inner[j + 1..]) then
        assert inner == inner[..j] + ":" + inner[j + 1..];
        Some((inner[..j], inner[j + 1..]))
      else None
  }

  /** `^([\w-]+)\[((\d+)|([A-Za-z0-9_-]+))\]$`: the name and the bracketed index. */
  function MatchIndex(tok: string): (r: Option<(string, string)>)
    ensures r.Some? ==> IsName(r.value.0) && IsName(r.value.1)
    ensures r.Some? ==> tok == r.value.0 + "[" + r.value.1 + "]"
  {
    match IndexOf(tok, '[')
    case None => None
    case Some(i) =>
      if !IsName(tok[..i]) || |tok| < i + 2 || tok[|tok| - 1] != ']' then None
      else
        var inner := tok[i + 1..|tok| - 1];
        if IsName(inner) then
          assert tok == tok[..i] + "[" + inner + "]";
          Some((tok[..i], inner))
        else None
  }

  /** Every string of the range shape is recognised, with its parts. */
  lemma RangeShapeMatches(name: string, a: string, b: string)
    requires IsName(name) && AllDigits(a) && AllDigits(b)
    ensures MatchRange(name + "[" + a + ":" + b + "]") == Some((name, a, b))
  {
    var tok := name + "[" + a + ":" + b + "]";
    NameHasNoPunctuation(name);
    DigitsHaveNoPunctuation(a);
    assert tok == name + ['['] + (a + ":" + b + "]");
    IndexOfAfter(name, '[', a + ":" + b + "]");
    assert tok[..|name|] == name;
    var inner := tok[|name| + 1..|tok| - 1];
    assert inner == a + [':'] + b;
    IndexOfAfter(a, ':', b);
    assert inner[..|a|] == a && inner[|a| + 1..] == b;
  }

  /** Every string of the index shape is recognised by the index grammar and not by the range grammar. */
  lemma IndexShapeMatches(name: string, x: string)
    requires IsName(name) && IsName(x)
    ensures MatchIndex(name + "[" + x + "]") == Some((name, x))
    ensures MatchRange(name + "[" + x + "]").None?
  {
    var tok := name + "[" + x + "]";
    NameHasNoPunctuation(name);
    NameHasNoPunctuation(x);
    assert tok == name + ['['] + (x + "]");
    IndexOfAfter(name, '[', x + "]");
    assert tok[..|name|] == name;
    var inner := tok[|name| + 1..|tok| - 1];
    assert inner == x;
  }

  /** A bare name is recognised by neither bracketed grammar. */
  lemma NameShapeMatches(name: string)
    requires IsName(name)
    ensures MatchRange(name).None? && MatchIndex(name).None?
  {
    NameHasNoPunctuation(name);
  }

  // ------------------------------------------------------ parsing

  /** The value of a range bound: `Undefined` without digits. */
  function Bound(digits: string): int
    requires AllDigits(digits)
  {
    if digits == "" then Undefined else FromDecimal(digits)
  }

  predicate ValidBound(b: int) {
    b == Undefined || 0 <= b <= MaxInt
  }

  /**
   * The segments `Parse` can produce: names and indexes drawn from the grammar,
   * numbers within `int` range, named indexes that are not all digits. The only
   * nameless segment is the plain one an empty token yields.
   */
  predicate ValidSegment(seg: Segment) {
    match seg.kind
    case Plain => seg.name == "" || IsName(seg.name)
    case Indexed(Numeric(n)) => IsName(seg.name) && 0 <= n <= MaxInt
    case Indexed(Named(x)) => IsName(seg.name) && IsName(x) && !AllDigits(x)
    case Ranged(from, to) => IsName(seg.name) && ValidBound(from) && ValidBound(to)
  }

  /**
   * One `.`-separated token of the path `p`: empty tokens become a nameless plain
   * segment; otherwise the range grammar is tried first, then the index grammar,
   * then the plain one.
   */
  function ParseToken(tok: string, p: string): (r: Result<Segment, ParseError>)
    ensures r.Success? ==> ValidSegment(r.value)
    ensures r.Success? ==> (r.value.name == "" <==> tok == "")
  {
    if tok == "" then Success(Segment("", Plain))
    else match MatchRange(tok)
      case Some((name, a, b)) =>
        if a != "" && FromDecimal(a) > MaxInt then Failure(InvalidRange(p, a, b))
        else if b != "" && FromDecimal(b) > MaxInt then Failure(InvalidRange(p, a, b))
        else Success(Segment(name, Ranged(Bound(a), Bound(b))))
      case None =>
        match MatchIndex(tok)
        case Some((name, x)) =>
          if AllDigits(x) then
            if FromDecimal(x) > MaxInt then Failure(InvalidNumericIndex(p, x))
            else Success(Segment(name, Indexed(Numeric(FromDecimal(x)))))
          else Success(Segment(name, Indexed(Named(x))))
        case None =>
          if IsName(tok) then Success(Segment(tok, Plain))
          else Failure(InvalidSegment(tok, p))
  }

  /**
   * The rejections: a non-empty token no grammar accepts is an invalid segment,
   * and a numeral beyond `int` is an invalid range or numeric index.
   */
  lemma ParseTokenRejects(tok: string, p: string)
    ensures tok != "" && MatchRange(tok).None? && MatchIndex(tok).None? ==>
              ParseToken(tok, p) == if IsName(tok) then Success(Segment(tok, Plain)) else Failure(InvalidSegment(tok, p))
    ensures MatchRange(tok).Some? ==>
              var (_, a, b) := MatchRange(tok).value;
              (a != "" && FromDecimal(a) > MaxInt) || (b != "" && FromDecimal(b) > MaxInt) ==>
                ParseToken(tok, p) == Failure(InvalidRange(p, a, b))
    ensures MatchRange(tok).None? && MatchIndex(tok).Some? ==>
              var (_, x) := MatchIndex(tok).value;
              AllDigits(x) && FromDecimal(x) > MaxInt ==> ParseToken(tok, p) == Failure(InvalidNumericIndex(p, x))
  {
  }

  /** The tokens in order; the first token that does not parse decides the error. */
  function ParseTokens(tokens: seq<string>, p: string): (r: Result<Path, ParseError>)
    ensures r.Success? ==> |r.value| == |tokens|
    ensures r.Success? ==> forall i :: 0 <= i < |tokens| ==> ParseToken(tokens[i], p) == Success(r.value[i])
    ensures r.Failure? <==> exists i :: 0 <= i < |tokens| && ParseToken(tokens[i], p).Failure?
    ensures r.Failure? ==> exists i :: 0 <= i < |tokens| && ParseToken(tokens[i], p) == Failure(r.error)
                                   && (forall j :: 0 <= j < i ==> ParseToken(tokens[j], p).Success?)
  {
    if |tokens| == 0 then Success([])
    else match ParseToken(tokens[0], p)
      case Failure(e) => Failure(e)
      case Success(seg) =>
        match ParseTokens(tokens[1..], p)
        case Failure(e) =>
          assert forall i :: 0 <= i < |tokens| - 1 ==> tokens[1..][i] == tokens[i + 1];
          Failure(e)
        case Success(rest) => Success([seg] + rest)
  }

  /** `Parse`: the empty string is the root path, anything else is split on `.`. */
  function Parse(p: string): (r: Result<Path, ParseError>)
    ensures p == "" ==> r == Success([])
    ensures r.Success? ==> forall i :: 0 <= i < |r.value| ==> ValidSegment(r.value[i])
    ensures p != "" && r.Success? ==>
              && |r.value| == |Split(p, '.')|
              && forall i :: 0 <= i < |r.value| ==> ParseToken(Split(p, '.')[i], p) == Success(r.value[i])
    ensures p != "" && r.Failure? ==> exists i :: 0 <= i < |Split(p, '.')| && ParseToken(Split(p, '.')[i], p).Failure?
    ensures p != "" && (exists i :: 0 <= i < |Split(p, '.')| && ParseToken(Split(p, '.')[i], p).Failure?) ==> r.Failure?
  {
    if p == "" then Success([])
    else
      ParseTokens(Split(p, '.'), p)
  }

  /** The segment a token parses to does not depend on the path quoted in error messages. */
  lemma ParseTokenIgnoresPath(tok: string, p: string, q: string)
    requires ParseToken(tok, p).Success?
    ensures ParseToken(tok, q) == ParseToken(tok, p)
  {
  }

  /** A bare name parses to one plain segment. */
  lemma ParseName(name: string)
    requires IsName(name)
    ensures Parse(name) == Success([Segment(name, Plain)])
  {
    NameHasNoPunctuation(name);
    SplitWithoutSep(name, '.');
    NameShapeMatches(name);
    assert Split(name, '.') == [name];
    assert ParseToken(name, name) == Success(Segment(name, Plain));
    assert ParseTokens([name][1..], name) == Success([]);
    assert ParseTokens([name], name) == Success([Segment(name, Plain)] + []);
    assert [Segment(name, Plain)] + [] == [Segment(name, Plain)];
  }

  /** Writing `.name` after a parseable path appends one plain segment to its parse. */
  lemma ParseSnoc(prefix: string, name: string)
    requires prefix != "" && Parse(prefix).Success? && IsName(name)
    ensures Parse(prefix + "." + name) == Success(Parse(prefix).value + [Segment(name, Plain)])
  {
    var s := prefix + "." + name;
    NameHasNoPunctuation(name);
    SplitSnoc(prefix, '.', name);
    var tokens := Split(prefix, '.');
    var all := Split(s, '.');
    assert all == tokens + [name];
    NameShapeMatches(name);
    assert ParseToken(name, s) == Success(Segment(name, Plain));
    var head := Parse(prefix).value;
    var want := head + [Segment(name, Plain)];
    forall i | 0 <= i < |all|
      ensures ParseToken(all[i], s) == Success(want[i])
    {
      if i < |tokens| {
        ParseTokenIgnoresPath(tokens[i], prefix, s);
      }
    }
    assert Parse(s).Success?;
    assert Parse(s).value == want;
  }

  // ------------------------------------------------------ printing

  function BoundString(b: int): string {
    if b != Undefined then IntToString(b) else ""
  }

  /** What `Segment.String` writes after the name. */
  function KindString(kind: SegmentKind): string
  {
    match kind
    case Plain => ""
    case Indexed(Numeric(n)) => "[" + IntToString(n) + "]"
    case Indexed(Named(x)) => "[" + x + "]"
    case Ranged(from, to) => "[" + BoundString(from) + ":" + BoundString(to) + "]"
  }

  /** `Segment.String`. */
  function SegmentString(seg: Segment): string
  {
    seg.name + KindString(seg.kind)
  }

  function SegmentStrings(p: Path): (strs: seq<string>)
    ensures |strs| == |p| && forall i :: 0 <= i < |p| ==> strs[i] == SegmentString(p[i])
  {
    seq(|p|, i requires 0 <= i < |p| => SegmentString(p[i]))
  }

  /** `Path.String`: the segments joined with `.`; the root path prints as the empty string. */
  function PathString(p: Path): string
  {
    Join(SegmentStrings(p), '.')
  }

  /** A token whose numerals carry no redundant leading zero (`Atoi` would drop it). */
  predicate CanonicalToken(tok: string) {
    match MatchRange(tok)
    case Some((_, a, b)) => CanonicalNumeral(a) && CanonicalNumeral(b)
    case None =>
      match MatchIndex(tok)
      case Some((_, x)) => AllDigits(x) ==> CanonicalNumeral(x)
      case None => true
  }

  lemma BoundRoundTrip(digits: string)
    requires AllDigits(digits) && CanonicalNumeral(digits)
    ensures BoundString(Bound(digits)) == digits
  {
    if digits != "" {
      NumeralRoundTrip(digits);
    }
  }

  lemma RangeSegmentPrints(name: string, a: string, b: string)
    requires AllDigits(a) && AllDigits(b) && CanonicalNumeral(a) && CanonicalNumeral(b)
    ensures SegmentString(Segment(name, Ranged(Bound(a), Bound(b)))) == name + "[" + a + ":" + b + "]"
  {
    BoundRoundTrip(a);
    BoundRoundTrip(b);
    assert KindString(Ranged(Bound(a), Bound(b))) == "[" + a + ":" + b + "]";
  }

  lemma ParsedRange(tok: string, p: string)
    requires tok != "" && MatchRange(tok).Some? && ParseToken(tok, p).Success?
    ensures var m := MatchRange(tok).value;
            ParseToken(tok, p).value == Segment(m.0, Ranged(Bound(m.1), Bound(m.2)))
  {
  }

  lemma RangeTokenRoundTrip(tok: string, p: string)
    requires tok != "" && MatchRange(tok).Some? && ParseToken(tok, p).Success?
    requires CanonicalNumeral(MatchRange(tok).value.1) && CanonicalNumeral(MatchRange(tok).value.2)
    ensures SegmentString(ParseToken(tok, p).value) == tok
  {
    var m := MatchRange(tok).value;
    ParsedRange(tok, p);
    RangeSegmentPrints(m.0, m.1, m.2);
  }

  lemma ParsedIndex(tok: string, p: string)
    requires tok != "" && MatchRange(tok).None? && MatchIndex(tok).Some? && ParseToken(tok, p).Success?
    ensures var m := MatchIndex(tok).value;
            ParseToken(tok, p).value ==
              Segment(m.0, Indexed(if AllDigits(m.1) then Numeric(FromDecimal(m.1)) else Named(m.1)))
  {
  }

  lemma NumericIndexPrints(name: string, n: int, x: string)
    requires IntToString(n) == x
    ensures SegmentString(Segment(name, Indexed(Numeric(n)))) == name + "[" + x + "]"
  {
  }

  lemma IndexTokenRoundTrip(tok: string, p: string)
    requires tok != "" && MatchRange(tok).None? && MatchIndex(tok).Some? && ParseToken(tok, p).Success?
    requires AllDigits(MatchIndex(tok).value.1) ==> CanonicalNumeral(MatchIndex(tok).value.1)
    ensures SegmentString(ParseToken(tok, p).value) == tok
  {
    var m := MatchIndex(tok).value;
    ParsedIndex(tok, p);
    if AllDigits(m.1) {
      NumeralRoundTrip(m.1);
      NumericIndexPrints(m.0, FromDecimal(m.1), m.1);
    } else {
      assert SegmentString(Segment(m.0, Indexed(Named(m.1)))) == m.0 + "[" + m.1 + "]";
    }
  }

  /** A parsed token prints back as written, provided its numerals are canonical. */
  lemma TokenRoundTrip(tok: string, p: string)
    requires ParseToken(tok, p).Success? && CanonicalToken(tok)
    ensures SegmentString(ParseToken(tok, p).value) == tok
  {
    if tok != "" {
      if MatchRange(tok).Some? {
        RangeTokenRoundTrip(tok, p);
      } else if MatchIndex(tok).Some? {
        IndexTokenRoundTrip(tok, p);
      }
    }
  }

  lemma NumericSegmentRoundTrip(name: string, n: int, p: string)
    requires ValidSegment(Segment(name, Indexed(Numeric(n))))
    ensures ParseToken(SegmentString(Segment(name, Indexed(Numeric(n)))), p) == Success(Segment(name, Indexed(Numeric(n))))
  {
    var x := ToDecimal(n);
    var tok := name + "[" + x + "]";
    assert SegmentString(Segment(name, Indexed(Numeric(n)))) == tok;
    DigitsAreNameChars(x);
    IndexShapeMatches(name, x);
    DecimalRoundTrip(n);
    assert FromDecimal(x) == n;
  }

  lemma NamedSegmentRoundTrip(name: string, x: string, p: string)
    requires ValidSegment(Segment(name, Indexed(Named(x))))
    ensures ParseToken(SegmentString(Segment(name, Indexed(Named(x)))), p) == Success(Segment(name, Indexed(Named(x))))
  {
    var tok := name + "[" + x + "]";
    assert SegmentString(Segment(name, Indexed(Named(x)))) == tok;
    IndexShapeMatches(name, x);
  }

  lemma BoundStringRoundTrip(b: int)
    requires ValidBound(b)
    ensures AllDigits(BoundString(b)) && Bound(BoundString(b)) == b
    ensures BoundString(b) != "" ==> FromDecimal(BoundString(b)) <= MaxInt
  {
    if b != Undefined {
      DecimalRoundTrip(b);
    }
  }

  lemma RangeSegmentRoundTrip(name: string, from: int, to: int, p: string)
    requires ValidSegment(Segment(name, Ranged(from, to)))
    ensures ParseToken(SegmentString(Segment(name, Ranged(from, to))), p) == Success(Segment(name, Ranged(from, to)))
  {
    var a, b := BoundString(from), BoundString(to);
    BoundStringRoundTrip(from);
    BoundStringRoundTrip(to);
    var tok := name + "[" + a + ":" + b + "]";
    assert SegmentString(Segment(name, Ranged(from, to))) == tok;
    RangeShapeMatches(name, a, b);
  }

  /** A well-formed segment prints as a token that parses back to it. */
  lemma SegmentRoundTrip(seg: Segment, p: string)
    requires ValidSegment(seg)
    ensures ParseToken(SegmentString(seg), p) == Success(seg)
  {
    match seg.kind
    case Plain =>
      assert SegmentString(seg) == seg.name;
      if seg.name != "" {
        NameShapeMatches(seg.name);
      }
    case Indexed(Numeric(n)) => NumericSegmentRoundTrip(seg.name, n, p);
    case Indexed(Named(x)) => NamedSegmentRoundTrip(seg.name, x, p);
    case Ranged(from, to) => RangeSegmentRoundTrip(seg.name, from, to, p);
  }

  lemma KindStringHasNoDot(kind: SegmentKind)
    requires kind.Indexed? && kind.index.Numeric? ==> kind.index.n >= 0
    requires kind.Indexed? && kind.index.Named? ==> IsName(kind.index.text)
    requires kind.Ranged? ==> ValidBound(kind.from) && ValidBound(kind.to)
    ensures '.' !in KindString(kind)
  {
    match kind
    case Plain =>
    case Indexed(Numeric(n)) =>
      DigitsHaveNoPunctuation(ToDecimal(n));
    case Indexed(Named(x)) =>
      NameHasNoPunctuation(x);
    case Ranged(from, to) =>
      BoundStringRoundTrip(from);
      BoundStringRoundTrip(to);
      DigitsHaveNoPunctuation(BoundString(from));
      DigitsHaveNoPunctuation(BoundString(to));
  }

  lemma SegmentStringHasNoDot(seg: Segment)
    requires ValidSegment(seg)
    ensures '.' !in SegmentString(seg)
  {
    if seg.name != "" {
      NameHasNoPunctuation(seg.name);
    }
    KindStringHasNoDot(seg.kind);
  }

  /**
   * Printing the parse of a string gives the string back when its numerals are
   * canonical (`Atoi` reads `007` as 7, which prints as `7`).
   */
  lemma PrintParse(s: string)
    requires Parse(s).Success?
    requires forall i :: 0 <= i < |Split(s, '.')| ==> CanonicalToken(Split(s, '.')[i])
    ensures PathString(Parse(s).value) == s
  {
    if s != "" {
      var tokens := Split(s, '.');
      var path := Parse(s).value;
      forall i | 0 <= i < |tokens|
        ensures SegmentStrings(path)[i] == tokens[i]
      {
        TokenRoundTrip(tokens[i], s);
      }
      assert SegmentStrings(path) == tokens;
      JoinSplit(s, '.');
    }
  }

  /** The paths that print to a string `Parse` reads back unchanged. */
  predicate ValidPath(p: Path) {
    && (forall i :: 0 <= i < |p| ==> ValidSegment(p[i]))
    && p != [Segment("", Plain)]
  }

  /** Parsing the printed form of a well-formed path gives the path back. */
  lemma ParsePrint(p: Path)
    requires ValidPath(p)
    ensures Parse(PathString(p)) == Success(p)
  {
    var strs := SegmentStrings(p);
    var s := PathString(p);
    if |p| > 0 {
      forall i | 0 <= i < |p|
        ensures '.' !in strs[i]
      {
        SegmentStringHasNoDot(p[i]);
      }
      if |p| == 1 {
        assert s == SegmentString(p[0]);
        assert s != "" by {
          if p[0].kind.Plain? {
            assert p[0].name != "";
          }
        }
      } else {
        assert s == strs[0] + ['.'] + Join(strs[1..], '.');
      }
      SplitJoin(strs, '.');
      forall i | 0 <= i < |p|
        ensures ParseToken(strs[i], s) == Success(p[i])
      {
        SegmentRoundTrip(p[i], s);
      }
      var r := ParseTokens(strs, s);
      assert r.Success?;
      assert r.value == p;
    }
  }

  // ------------------------------------------------------ append

  /** `Append`: the receiver followed by the argument, as a new path. */
  function Append(base: Path, rel: Path): (r: Path)
    ensures |r| == |base| + |rel|
    ensures r[..|base|] == base && r[|base|..] == rel
  {
    base + rel
  }

  /** Printing an appended path prints both parts around a `.`. */
  lemma AppendPrints(base: Path, rel: Path)
    requires |base| > 0 && |rel| > 0
    ensures PathString(Append(base, rel)) == PathString(base) + "." + PathString(rel)
  {
    assert SegmentStrings(Append(base, rel)) == SegmentStrings(base) + SegmentStrings(rel);
    JoinAppend(SegmentStrings(base), SegmentStrings(rel), '.');
  }

  /** Go's `copy(dst, src)`: only as many elements as `dst` already holds are overwritten. */
  function Copy(dst: Path, src: Path): (r: Path)
    ensures |r| == |dst|
    ensures |src| <= |dst| ==> r == src + dst[|src|..]
    ensures |dst| <= |src| ==> r == src[..|dst|]
  {
    seq(|dst|, i requires 0 <= i < |dst| => if i < |src| then src[i] else dst[i])
  }

  /**
   * `Append` as its body is written: the receiver is copied into a nil slice,
   * which has room for nothing, so only the argument survives.
   */
  function AppendAsWritten(base: Path, rel: Path): Path
  {
    var result: Path := [];
    Copy(result, base) + rel
  }

  /** The written body drops the receiver: it returns the argument alone. */
  lemma AppendAsWrittenDropsReceiver(base: Path, rel: Path)
    ensures AppendAsWritten(base, rel) == rel
    ensures |base| > 0 ==> AppendAsWritten(base, rel) != Append(base, rel)
  {
    assert |AppendAsWritten(base, rel)| == |rel|;
  }

  /** `foo` appended with `bar` prints as `bar` as written, but as `foo.bar` once corrected. */
  lemma AppendFooBar()
    ensures PathString(AppendAsWritten([Segment("foo", Plain)], [Segment("bar", Plain)])) == "bar"
    ensures PathString(Append([Segment("foo", Plain)], [Segment("bar", Plain)])) == "foo.bar"
  {
    AppendAsWrittenDropsReceiver([Segment("foo", Plain)], [Segment("bar", Plain)]);
    AppendPrints([Segment("foo", Plain)], [Segment("bar", Plain)]);
  }
}
