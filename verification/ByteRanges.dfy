/** Byte-range headers as winsdk/stream_models.go prints and parses them, against section 2.1 of
    RFC 7233. */
module ByteRanges {
  import opened Support

  datatype HttpRange = HttpRange(start: int, length: int, total: int)

  /** The Content-Range value of a range. */
  function Header(r: HttpRange): string {
    "bytes " + Decimal(r.start) + "-" + Decimal(r.start + r.length - 1) + "/" + Decimal(r.total)
  }

  // ----- the string helpers the parser uses -----

  predicate IsSpace(c: char) {
    c == ' ' || c == '\t' || c == '\n' || c == '\r'
  }

  function TrimLeft(s: string): string {
    if s != "" && IsSpace(s[0]) then TrimLeft(s[1..]) else s
  }

  function TrimRight(s: string): string {
    if s != "" && IsSpace(s[|s| - 1]) then TrimRight(s[..|s| - 1]) else s
  }

  /** textproto.TrimString. */
  function Trim(s: string): string {
    TrimRight(TrimLeft(s))
  }

  /** strings.Split: never empty, "" gives one empty piece. */
  function Split(s: string, c: char): (pieces: seq<string>)
    ensures pieces != []
    decreases |s|
  {
    var k := Find(s, c);
    if k == |s| then [s] else [s[..k]] + Split(s[k + 1..], c)
  }

  /** strconv.ParseInt(s, 10, 64): an optional sign, at least one digit, no overflow. */
  function ParseInt(s: string): Option<int> {
    if s == "" then None
    else
      var signed := s[0] == '+' || s[0] == '-';
      var digits := if signed then s[1..] else s;
      if digits == "" || !AllDigits(digits) then None
      else if s[0] == '-' then (if Number(digits) > MAX_INT64 + 1 then None else Some(0 - Number(digits)))
      else if Number(digits) > MAX_INT64 then None
      else Some(Number(digits))
  }

  // ----- the parser -----

  datatype Piece = Skip | Bad | Good(range: HttpRange, beyond: bool)

  /** The two sides of the first dash, trimmed. `noOverlap` is the sticky flag left by the pieces before,
      `beyond` its new value. */
  function ParseBounds(start: string, end: string, total: int, sizePerRequest: int, noOverlap: bool): Piece {
    if start == "" then
      if end == "" || end[0] == '-' then Bad
      else match ParseInt(end)
        case None => Bad
        case Some(i) =>
          if i < 0 then Bad
          else
            var n := if i > total then total else i;
            Good(HttpRange(total - n, total - (total - n), total), noOverlap)
    else match ParseInt(start)
      case None => Bad
      case Some(i) =>
        if i < 0 then Bad
        else
          var beyond := noOverlap || i >= total;
          var first := if i >= total then total - 1 else i;
          if end == "" then
            var length := if sizePerRequest > total - first && !beyond then total - first else sizePerRequest;
            Good(HttpRange(first, length, total), beyond)
          else match ParseInt(end)
            case None => Bad
            case Some(j) =>
              if first > j then Bad
              else
                var last := if j >= total then total - 1 else j;
                Good(HttpRange(first, last - first + 1, total), beyond)
  }

  function ParseTrimmed(ra: string, total: int, sizePerRequest: int, noOverlap: bool): Piece {
    var k := Find(ra, '-');
    if ra == "" then Skip
    else if k == |ra| then Bad
    else ParseBounds(Trim(ra[..k]), Trim(ra[k + 1..]), total, sizePerRequest, noOverlap)
  }

  /** One comma-separated piece of the header. */
  function ParsePiece(piece: string, total: int, sizePerRequest: int, noOverlap: bool): Piece {
    ParseTrimmed(Trim(piece), total, sizePerRequest, noOverlap)
  }

  /** The variables of the loop after some pieces; `ok` is false once a piece was bad. */
  datatype Scan = Scan(ranges: seq<HttpRange>, noOverlap: bool, ok: bool)

  function Step(before: Scan, p: Piece): Scan {
    if !before.ok then before
    else match p
      case Skip => before
      case Bad => before.(ok := false)
      case Good(r, beyond) => Scan(before.ranges + [r], beyond, true)
  }

  type PieceParser = (string, bool) -> Piece

  function Parser(total: int, sizePerRequest: int): PieceParser {
    (piece, noOverlap) => ParsePiece(piece, total, sizePerRequest, noOverlap)
  }

  function ScanPieces(pieces: seq<string>, parse: PieceParser): Scan {
    if pieces == [] then Scan([], false, true)
    else
      var m := |pieces| - 1;
      var before := ScanPieces(pieces[..m], parse);
      Step(before, parse(pieces[m], before.noOverlap))
  }

  lemma ScanStep(pieces: seq<string>, parse: PieceParser, i: nat)
    requires i < |pieces|
    ensures var before := ScanPieces(pieces[..i], parse);
            ScanPieces(pieces[..i + 1], parse) == Step(before, parse(pieces[i], before.noOverlap))
  {
    assert pieces[..i + 1][..i] == pieces[..i];
  }

  datatype Parsed = Ranges(ranges: seq<HttpRange>) | InvalidRange | NoOverlap

  const PREFIX := "bytes="

  function Parse(s: string, total: int, sizePerRequest: int): Parsed {
    if s == "" then Ranges([])
    else if !(PREFIX <= s) then InvalidRange
    else
      var scan := ScanPieces(Split(s[|PREFIX|..], ','), Parser(total, sizePerRequest));
      if !scan.ok then InvalidRange
      else if scan.noOverlap && scan.ranges == [] then NoOverlap
      else Ranges(scan.ranges)
  }

  /** Once the flag is up some range has been produced. */
  lemma {:induction false} FlagMeansRanges(pieces: seq<string>, total: int, sizePerRequest: int)
    ensures var scan := ScanPieces(pieces, Parser(total, sizePerRequest)); scan.noOverlap ==> scan.ranges != []
  {
    if pieces != [] {
      FlagMeansRanges(pieces[..|pieces| - 1], total, sizePerRequest);
    }
  }

  /** errNoOverlap is unreachable, for every header and every total. */
  lemma NeverNoOverlap(s: string, total: int, sizePerRequest: int)
    ensures Parse(s, total, sizePerRequest) != NoOverlap
  {
    if PREFIX <= s {
      FlagMeansRanges(Split(s[|PREFIX|..], ','), total, sizePerRequest);
    }
  }

  /** parseRange. */
  method ParseRange(s: string, total: int, sizePerRequest: int) returns (r: Parsed)
    ensures r == Parse(s, total, sizePerRequest)
    ensures s == "" ==> r == Ranges([])
    ensures r != NoOverlap
  {
    NeverNoOverlap(s, total, sizePerRequest);
    if s == "" {
      return Ranges([]);
    }
    if !(PREFIX <= s) {
      return InvalidRange;
    }
    var pieces := Split(s[|PREFIX|..], ',');
    var ranges: seq<HttpRange>, noOverlap := [], false;
    for i := 0 to |pieces|
      invariant ScanPieces(pieces[..i], Parser(total, sizePerRequest)) == Scan(ranges, noOverlap, true)
    {
      ScanStep(pieces, Parser(total, sizePerRequest), i);
      match ParsePiece(pieces[i], total, sizePerRequest, noOverlap) {
        case Skip =>
        case Bad =>
          BadStaysBad(pieces, Parser(total, sizePerRequest), i + 1);
          return InvalidRange;
        case Good(range, beyond) =>
          noOverlap := beyond;
          ranges := ranges + [range];
      }
    }
    assert pieces[..|pieces|] == pieces;
    if noOverlap && ranges == [] {
      return NoOverlap;
    }
    return Ranges(ranges);
  }

  lemma {:induction false} BadStaysBad(pieces: seq<string>, parse: PieceParser, i: nat)
    requires i <= |pieces|
    requires !ScanPieces(pieces[..i], parse).ok
    ensures !ScanPieces(pieces, parse).ok
  {
    if i < |pieces| {
      var m := |pieces| - 1;
      assert pieces[..m][..i] == pieces[..i];
      BadStaysBad(pieces[..m], parse, i);
    } else {
      assert pieces[..i] == pieces;
    }
  }

  // ----- RFC 7233, section 2.1 -----

  /** byte-range-spec and suffix-byte-range-spec. */
  datatype Spec = FromTo(first: nat, last: nat) | From(first: nat) | Suffix(length: nat)

  /** A list element with optional white space around it; elements may be empty. */
  datatype Element = Empty(space: string) | Range(before: string, spec: Spec, after: string)

  predicate AllSpace(s: string) {
    forall i :: 0 <= i < |s| ==> IsSpace(s[i])
  }

  predicate WellFormedSpec(spec: Spec) {
    match spec
    case FromTo(first, last) => first <= last <= MAX_INT64
    case From(first) => first <= MAX_INT64
    case Suffix(length) => 1 <= length <= MAX_INT64
  }

  predicate WellFormedElement(e: Element) {
    match e
    case Empty(space) => AllSpace(space)
    case Range(before, spec, after) => AllSpace(before) && AllSpace(after) && WellFormedSpec(spec)
  }

  predicate WellFormed(es: seq<Element>) {
    forall i :: 0 <= i < |es| ==> WellFormedElement(es[i])
  }

  function PrintSpec(spec: Spec): string {
    match spec
    case FromTo(first, last) => Digits(first) + "-" + Digits(last)
    case From(first) => Digits(first) + "-"
    case Suffix(length) => "-" + Digits(length)
  }

  function PrintElement(e: Element): string {
    match e
    case Empty(space) => space
    case Range(before, spec, after) => before + PrintSpec(spec) + after
  }

  function PrintElements(es: seq<Element>): seq<string> {
    seq(|es|, i requires 0 <= i < |es| => PrintElement(es[i]))
  }

  function PrintHeader(es: seq<Element>): string {
    PREFIX + Join(PrintElements(es), ",")
  }

  /** The byte positions a spec selects from a representation of the given length. */
  predicate Selects(spec: Spec, total: int, position: int) {
    && 0 <= position < total
    && match spec
       case FromTo(first, last) => first <= position <= last
       case From(first) => first <= position
       case Suffix(length) => total - length <= position
  }

  predicate Covers(r: HttpRange, position: int) {
    r.start <= position < r.start + r.length
  }

  /** The first position is beyond the end of the content. */
  predicate Beyond(e: Element, total: int) {
    e.Range? && !e.spec.Suffix? && e.spec.first >= total
  }

  predicate AnyBeyond(es: seq<Element>, total: int) {
    exists i :: 0 <= i < |es| && Beyond(es[i], total)
  }

  /** The range the parser makes of a spec, with the flag as it stands after reading it. */
  function Meaning(spec: Spec, total: int, sizePerRequest: int, beyond: bool): HttpRange {
    match spec
    case FromTo(first, last) =>
      var start := Min(first, total - 1);
      HttpRange(start, Min(last, total - 1) - start + 1, total)
    case From(first) =>
      var start := Min(first, total - 1);
      HttpRange(start, if beyond then sizePerRequest else Min(sizePerRequest, total - start), total)
    case Suffix(length) => HttpRange(total - Min(length, total), Min(length, total), total)
  }

  function Meanings(es: seq<Element>, total: int, sizePerRequest: int): seq<HttpRange> {
    if es == [] then []
    else
      var m := |es| - 1;
      Meanings(es[..m], total, sizePerRequest) +
      (if es[m].Empty? then [] else [Meaning(es[m].spec, total, sizePerRequest, AnyBeyond(es, total))])
  }

  // ----- printing, then splitting -----

  lemma {:induction false} TrimLeftPad(pad: string, s: string)
    requires AllSpace(pad)
    requires s == "" || !IsSpace(s[0])
    ensures TrimLeft(pad + s) == s
  {
    if pad == "" {
      assert pad + s == s;
    } else {
      assert (pad + s)[1..] == pad[1..] + s;
      TrimLeftPad(pad[1..], s);
    }
  }

  lemma {:induction false} TrimRightPad(s: string, pad: string)
    requires AllSpace(pad)
    requires s == "" || !IsSpace(s[|s| - 1])
    ensures TrimRight(s + pad) == s
  {
    if pad == "" {
      assert s + pad == s;
    } else {
      assert (s + pad)[..|s + pad| - 1] == s + pad[..|pad| - 1];
      TrimRightPad(s, pad[..|pad| - 1]);
    }
  }

  lemma TrimPads(before: string, s: string, after: string)
    requires AllSpace(before) && AllSpace(after)
    requires s != "" && !IsSpace(s[0]) && !IsSpace(s[|s| - 1])
    ensures Trim(before + s + after) == s
  {
    assert before + s + after == before + (s + after);
    TrimLeftPad(before, s + after);
    TrimRightPad(s, after);
  }

  lemma TrimBlank(s: string)
    requires AllSpace(s)
    ensures Trim(s) == ""
  {
    TrimLeftPad(s, "");
    assert s + "" == s;
  }

  lemma TrimDigits(n: nat)
    ensures Trim(Digits(n)) == Digits(n)
  {
    TrimPads("", Digits(n), "");
    assert "" + Digits(n) + "" == Digits(n);
  }

  lemma {:induction false} SplitJoin(pieces: seq<string>)
    requires pieces != []
    requires forall i :: 0 <= i < |pieces| ==> ',' !in pieces[i]
    ensures Split(Join(pieces, ","), ',') == pieces
  {
    if |pieces| == 1 {
      assert forall i :: 0 <= i < |pieces[0]| ==> pieces[0][i] in pieces[0];
    } else {
      var s, rest := pieces[0], Join(pieces[1..], ",");
      FindAfter(s, ',', rest);
      assert Join(pieces, ",") == s + [','] + rest;
      assert Join(pieces, ",")[..|s|] == s && Join(pieces, ",")[|s| + 1..] == rest;
      SplitJoin(pieces[1..]);
    }
  }

  lemma ParseDigits(n: nat)
    requires n <= MAX_INT64
    ensures ParseInt(Digits(n)) == Some(n)
  {
    NumberOfDigits(n);
    assert IsDigit(Digits(n)[0]);
  }

  lemma SpecChars(spec: Spec)
    ensures var s := PrintSpec(spec); s != "" && !IsSpace(s[0]) && !IsSpace(s[|s| - 1])
    ensures ',' !in PrintSpec(spec)
  {
  }

  // ----- printing, then parsing one piece -----

  /** The first dash of a printed spec is the one between its bounds. */
  lemma CutAtDash(a: string, b: string, total: int, sizePerRequest: int, noOverlap: bool)
    requires AllDigits(a)
    ensures ParseTrimmed(a + "-" + b, total, sizePerRequest, noOverlap)
         == ParseBounds(Trim(a), Trim(b), total, sizePerRequest, noOverlap)
  {
    var ra := a + ['-'] + b;
    assert ra == a + "-" + b;
    FindAfter(a, '-', b);
    assert ra[..|a|] == a && ra[|a| + 1..] == b;
  }

  lemma BothBounds(first: nat, last: nat, total: int, sizePerRequest: int, noOverlap: bool)
    requires total > 0 && first <= last <= MAX_INT64
    ensures ParseBounds(Digits(first), Digits(last), total, sizePerRequest, noOverlap)
         == Good(Meaning(FromTo(first, last), total, sizePerRequest, noOverlap || first >= total),
                 noOverlap || first >= total)
  {
    ParseNumber(first);
    ParseNumber(last);
  }

  lemma FirstBound(first: nat, total: int, sizePerRequest: int, noOverlap: bool)
    requires total > 0 && first <= MAX_INT64
    ensures ParseBounds(Digits(first), "", total, sizePerRequest, noOverlap)
         == Good(Meaning(From(first), total, sizePerRequest, noOverlap || first >= total), noOverlap || first >= total)
  {
    ParseNumber(first);
  }

  lemma LastBound(length: nat, total: int, sizePerRequest: int, noOverlap: bool)
    requires total > 0 && 1 <= length <= MAX_INT64
    ensures ParseBounds("", Digits(length), total, sizePerRequest, noOverlap)
         == Good(Meaning(Suffix(length), total, sizePerRequest, noOverlap), noOverlap)
  {
    ParseNumber(length);
  }

  lemma ParseSpec(spec: Spec, total: int, sizePerRequest: int, noOverlap: bool)
    requires total > 0 && WellFormedSpec(spec)
    ensures var beyond := noOverlap || (!spec.Suffix? && spec.first >= total);
            ParseTrimmed(PrintSpec(spec), total, sizePerRequest, noOverlap)
              == Good(Meaning(spec, total, sizePerRequest, beyond), beyond)
  {
    TrimBlank("");
    match spec {
      case FromTo(first, last) =>
        CutAtDash(Digits(first), Digits(last), total, sizePerRequest, noOverlap);
        TrimDigits(first);
        TrimDigits(last);
        BothBounds(first, last, total, sizePerRequest, noOverlap);
      case From(first) =>
        CutAtDash(Digits(first), "", total, sizePerRequest, noOverlap);
        assert Digits(first) + "-" + "" == Digits(first) + "-";
        TrimDigits(first);
        FirstBound(first, total, sizePerRequest, noOverlap);
      case Suffix(length) =>
        CutAtDash("", Digits(length), total, sizePerRequest, noOverlap);
        assert "" + "-" + Digits(length) == "-" + Digits(length);
        TrimDigits(length);
        LastBound(length, total, sizePerRequest, noOverlap);
    }
  }

  lemma ParseNumber(n: nat)
    requires n <= MAX_INT64
    ensures Digits(n) != "" && Digits(n)[0] != '-'
    ensures ParseInt(Digits(n)) == Some(n)
  {
    ParseDigits(n);
    assert IsDigit(Digits(n)[0]);
  }

  lemma ParseElement(e: Element, total: int, sizePerRequest: int, noOverlap: bool)
    requires total > 0 && WellFormedElement(e)
    ensures ParsePiece(PrintElement(e), total, sizePerRequest, noOverlap) ==
              if e.Empty? then Skip
              else Good(Meaning(e.spec, total, sizePerRequest, noOverlap || Beyond(e, total)), noOverlap || Beyond(e,
                        total))
  {
    match e {
      case Empty(space) => TrimBlank(space);
      case Range(before, spec, after) =>
        SpecChars(spec);
        TrimPads(before, PrintSpec(spec), after);
        ParseSpec(spec, total, sizePerRequest, noOverlap);
    }
  }

  lemma {:induction false} ScanPrinted(es: seq<Element>, total: int, sizePerRequest: int)
    requires total > 0 && WellFormed(es)
    ensures ScanPieces(PrintElements(es), Parser(total, sizePerRequest))
         == Scan(Meanings(es, total, sizePerRequest), AnyBeyond(es, total), true)
  {
    if es != [] {
      var m := |es| - 1;
      ScanPrinted(es[..m], total, sizePerRequest);
      assert PrintElements(es)[..m] == PrintElements(es[..m]);
      ParseElement(es[m], total, sizePerRequest, AnyBeyond(es[..m], total));
      AnyBeyondStep(es, total);
    }
  }

  lemma AnyBeyondStep(es: seq<Element>, total: int)
    requires es != []
    ensures AnyBeyond(es, total) <==> AnyBeyond(es[..|es| - 1], total) || Beyond(es[|es| - 1], total)
  {
    var m := |es| - 1;
    if i :| 0 <= i < |es| && Beyond(es[i], total) {
      assert i < m ==> Beyond(es[..m][i], total);
    }
    if i :| 0 <= i < m && Beyond(es[..m][i], total) {
      assert Beyond(es[i], total);
    }
  }

  /** Printing any list of range specs, with optional white space and empty elements, and parsing it
      gives one range per spec, in order. */
  lemma ParsePrinted(es: seq<Element>, total: int, sizePerRequest: int)
    requires total > 0 && WellFormed(es)
    ensures Parse(PrintHeader(es), total, sizePerRequest) == Ranges(Meanings(es, total, sizePerRequest))
  {
    var s, pieces := PrintHeader(es), PrintElements(es);
    assert s[|PREFIX|..] == Join(pieces, ",");
    NeverNoOverlap(s, total, sizePerRequest);
    if es == [] {
      ScanBlank(total, sizePerRequest);
    } else {
      forall i | 0 <= i < |pieces| ensures ',' !in pieces[i] {
        NoComma(es[i]);
      }
      SplitJoin(pieces);
      ScanPrinted(es, total, sizePerRequest);
    }
  }

  lemma ScanBlank(total: int, sizePerRequest: int)
    ensures ScanPieces(Split("", ','), Parser(total, sizePerRequest)) == Scan([], false, true)
  {
    var pieces := Split("", ',');
    assert pieces == [""];
    ScanStep(pieces, Parser(total, sizePerRequest), 0);
    assert pieces[..0] == [] && pieces[..1] == pieces;
    TrimBlank("");
    assert ParsePiece("", total, sizePerRequest, false) == Skip;
  }

  lemma NoComma(e: Element)
    requires WellFormedElement(e)
    ensures ',' !in PrintElement(e)
  {
    if e.Range? {
      SpecChars(e.spec);
    }
  }

  // ----- what the parsed ranges denote -----

  /** The range of a spec whose first position lies in the content covers exactly the positions that
      section 2.1 selects, an open-ended one no more than sizePerRequest of them. */
  lemma MeaningIsSelection(spec: Spec, total: int, sizePerRequest: int, position: int)
    requires total > 0 && WellFormedSpec(spec)
    requires !spec.Suffix? ==> spec.first < total
    ensures Covers(Meaning(spec, total, sizePerRequest, false), position)
       <==> Selects(spec, total, position) && (spec.From? ==> position < spec.first + sizePerRequest)
  {
  }

  /** The ranges parsed from a satisfiable header, element by element. */
  function Specs(es: seq<Element>): seq<Spec> {
    if es == [] then []
    else Specs(es[..|es| - 1]) + (if es[|es| - 1].Empty? then [] else [es[|es| - 1].spec])
  }

  /** Round trip: for specs whose first position lies in the content, the parsed ranges are, in order,
      exactly the byte sets of the specs, open-ended ones cut to sizePerRequest. */
  lemma {:induction false} RoundTrip(es: seq<Element>, total: int, sizePerRequest: int)
    requires total > 0 && WellFormed(es)
    requires !AnyBeyond(es, total)
    ensures Parse(PrintHeader(es), total, sizePerRequest) == Ranges(Meanings(es, total, sizePerRequest))
    ensures |Meanings(es, total, sizePerRequest)| == |Specs(es)|
    ensures forall i, position :: 0 <= i < |Specs(es)| ==>
              (Covers(Meanings(es, total, sizePerRequest)[i], position)
               <==> Selects(Specs(es)[i], total, position)
                    && (Specs(es)[i].From? ==> position < Specs(es)[i].first + sizePerRequest))
  {
    ParsePrinted(es, total, sizePerRequest);
    if es != [] {
      var m := |es| - 1;
      AnyBeyondStep(es, total);
      RoundTrip(es[..m], total, sizePerRequest);
      if es[m].Range? {
        assert Beyond(es[m], total) ==> AnyBeyond(es, total);
        forall position
          ensures Covers(Meaning(es[m].spec, total, sizePerRequest, false), position)
             <==> Selects(es[m].spec, total, position)
                    && (es[m].spec.From? ==> position < es[m].spec.first + sizePerRequest)
        {
          MeaningIsSelection(es[m].spec, total, sizePerRequest, position);
        }
      }
    }
  }

  predicate Inside(r: HttpRange) {
    0 <= r.start && r.start + r.length <= r.total
  }

  /** An open-ended spec that is read with the flag up and asks for more than is left. */
  predicate Overruns(es: seq<Element>, total: int, sizePerRequest: int, i: nat)
    requires i < |es|
  {
    && es[i].Range? && es[i].spec.From?
    && AnyBeyond(es[..i + 1], total)
    && sizePerRequest > total - Min(es[i].spec.first, total - 1)
  }

  predicate AllInside(ranges: seq<HttpRange>) {
    forall k :: 0 <= k < |ranges| ==> Inside(ranges[k])
  }

  predicate NoOverrun(es: seq<Element>, total: int, sizePerRequest: int) {
    forall i: nat :: i < |es| ==> !Overruns(es, total, sizePerRequest, i)
  }

  lemma NoOverrunStep(es: seq<Element>, total: int, sizePerRequest: int)
    requires es != []
    ensures NoOverrun(es, total, sizePerRequest)
       <==> NoOverrun(es[..|es| - 1], total, sizePerRequest) && !Overruns(es, total, sizePerRequest, |es| - 1)
  {
    var fewer := es[..|es| - 1];
    forall i: nat | i < |fewer|
      ensures Overruns(es, total, sizePerRequest, i) == Overruns(fewer, total, sizePerRequest, i) {
      assert fewer[..i + 1] == es[..i + 1];
    }
  }

  lemma AllInsideStep(ranges: seq<HttpRange>, r: HttpRange)
    ensures AllInside(ranges + [r]) <==> AllInside(ranges) && Inside(r)
  {
    var all := ranges + [r];
    assert forall k :: 0 <= k < |ranges| ==> all[k] == ranges[k];
    assert all[|ranges|] == r;
  }

  lemma {:induction false} MeaningsInside(es: seq<Element>, total: int, sizePerRequest: int)
    requires total > 0 && WellFormed(es)
    ensures AllInside(Meanings(es, total, sizePerRequest)) <==> NoOverrun(es, total, sizePerRequest)
  {
    if es != [] {
      var m := |es| - 1;
      MeaningsInside(es[..m], total, sizePerRequest);
      NoOverrunStep(es, total, sizePerRequest);
      assert es[..m + 1] == es;
      if es[m].Range? {
        AllInsideStep(Meanings(es[..m], total, sizePerRequest),
                      Meaning(es[m].spec, total, sizePerRequest, AnyBeyond(es, total)));
      } else {
        assert Meanings(es, total, sizePerRequest) == Meanings(es[..m], total, sizePerRequest);
      }
    }
  }

  /** Ranges can run past the end of the content, because the flag raised by one spec stays up for the
      later ones. The ranges of a printed header all stay inside exactly when no open-ended spec, at or
      after one that starts beyond the end, asks for more than is left from its own start. */
  lemma InsideUnlessFlagSticks(es: seq<Element>, total: int, sizePerRequest: int)
    requires total > 0 && WellFormed(es)
    ensures Parse(PrintHeader(es), total, sizePerRequest).Ranges?
    ensures AllInside(Parse(PrintHeader(es), total, sizePerRequest).ranges) <==> NoOverrun(es, total, sizePerRequest)
  {
    ParsePrinted(es, total, sizePerRequest);
    MeaningsInside(es, total, sizePerRequest);
  }

  /** For instance, of ten bytes both of these ranges are full requests, and leave the content unless a
      request is that small. */
  lemma StickyFlag(sizePerRequest: int)
    ensures Parse("bytes=20-,5-", 10, sizePerRequest)
         == Ranges([HttpRange(9, sizePerRequest, 10), HttpRange(5, sizePerRequest, 10)])
  {
    var es := [Range("", From(20), ""), Range("", From(5), "")];
    ParsePrinted(es, 10, sizePerRequest);
    StickyText(es);
    StickyMeaning(es, sizePerRequest);
  }

  lemma StickyText(es: seq<Element>)
    requires es == [Range("", From(20), ""), Range("", From(5), "")]
    ensures PrintHeader(es) == "bytes=20-,5-"
  {
    assert Digits(20) == "20" && Digits(5) == "5";
    assert PrintElement(es[0]) == "20-" && PrintElement(es[1]) == "5-";
    assert PrintElements(es) == ["20-", "5-"];
    assert ["20-", "5-"][1..] == ["5-"];
    assert Join(["20-", "5-"], ",") == "20-" + "," + "5-" == "20-,5-";
  }

  lemma StickyMeaning(es: seq<Element>, sizePerRequest: int)
    requires es == [Range("", From(20), ""), Range("", From(5), "")]
    ensures Meanings(es, 10, sizePerRequest)
         == [HttpRange(9, sizePerRequest, 10), HttpRange(5, sizePerRequest, 10)]
  {
    assert es[..1] == [es[0]] && es[..1][..0] == [] && Beyond(es[0], 10) && Beyond(es[..1][0], 10);
    assert AnyBeyond(es, 10) && AnyBeyond(es[..1], 10);
    assert Meanings(es[..1][..0], 10, sizePerRequest) == [];
    assert Meanings(es[..1], 10, sizePerRequest) == [HttpRange(9, sizePerRequest, 10)];
  }

  // ----- any header at all -----

  /** Whether a piece is bad does not depend on the flag. */
  lemma BadWhateverTheFlag(piece: string, total: int, sizePerRequest: int, noOverlap: bool)
    ensures ParsePiece(piece, total, sizePerRequest, noOverlap).Bad?
         == ParsePiece(piece, total, sizePerRequest, false).Bad?
  {
  }

  predicate IsBad(piece: string, total: int, sizePerRequest: int) {
    ParsePiece(piece, total, sizePerRequest, false).Bad?
  }

  predicate AnyBad(pieces: seq<string>, total: int, sizePerRequest: int) {
    exists i :: 0 <= i < |pieces| && IsBad(pieces[i], total, sizePerRequest)
  }

  lemma AnyBadStep(pieces: seq<string>, total: int, sizePerRequest: int)
    requires pieces != []
    ensures AnyBad(pieces, total, sizePerRequest)
       <==> AnyBad(pieces[..|pieces| - 1], total, sizePerRequest) || IsBad(pieces[|pieces| - 1], total, sizePerRequest)
  {
    AnyStep(pieces, piece => IsBad(piece, total, sizePerRequest));
  }

  lemma AnyStep(pieces: seq<string>, bad: string -> bool)
    requires pieces != []
    ensures var m := |pieces| - 1;
            (exists i :: 0 <= i < |pieces| && bad(pieces[i]))
            <==> (exists i :: 0 <= i < m && bad(pieces[..m][i])) || bad(pieces[m])
  {
    var m := |pieces| - 1;
    if i :| 0 <= i < |pieces| && bad(pieces[i]) {
      assert i < m ==> pieces[..m][i] == pieces[i];
    }
    if i :| 0 <= i < m && bad(pieces[..m][i]) {
      assert bad(pieces[i]);
    }
  }

  lemma {:induction false} EveryPieceCounts(pieces: seq<string>, total: int, sizePerRequest: int)
    ensures ScanPieces(pieces, Parser(total, sizePerRequest)).ok <==> !AnyBad(pieces, total, sizePerRequest)
  {
    if pieces != [] {
      var m := |pieces| - 1;
      EveryPieceCounts(pieces[..m], total, sizePerRequest);
      AnyBadStep(pieces, total, sizePerRequest);
      ScanStep(pieces, Parser(total, sizePerRequest), m);
      assert pieces[..m + 1] == pieces;
      var before := ScanPieces(pieces[..m], Parser(total, sizePerRequest));
      BadWhateverTheFlag(pieces[m], total, sizePerRequest, before.noOverlap);
    }
  }

  /** A header is refused exactly when it lacks the prefix or one of its pieces is bad on its own: no
      piece makes another one acceptable or not. */
  lemma RefusedIffBadPiece(s: string, total: int, sizePerRequest: int)
    ensures Parse(s, total, sizePerRequest).InvalidRange?
       <==> s != "" && (PREFIX <= s ==> AnyBad(Split(s[|PREFIX|..], ','), total, sizePerRequest))
  {
    NeverNoOverlap(s, total, sizePerRequest);
    if PREFIX <= s {
      EveryPieceCounts(Split(s[|PREFIX|..], ','), total, sizePerRequest);
    }
  }

  /** Starts in the content, and ends in it unless it has the full length of one request. */
  predicate Anchored(r: HttpRange, total: int, sizePerRequest: int) {
    r.total == total && 0 <= r.start <= total && (r.length == sizePerRequest || 0 <= r.length <= total - r.start)
  }

  lemma PieceIsAnchored(piece: string, total: int, sizePerRequest: int, noOverlap: bool)
    requires total > 0
    ensures var p := ParsePiece(piece, total, sizePerRequest, noOverlap);
            p.Good? ==> Anchored(p.range, total, sizePerRequest)
  {
  }

  /** Whatever the header says, every range it yields is anchored in the content. */
  lemma {:induction false} EveryRangeIsAnchored(pieces: seq<string>, total: int, sizePerRequest: int, k: nat)
    requires total > 0 && k < |ScanPieces(pieces, Parser(total, sizePerRequest)).ranges|
    ensures Anchored(ScanPieces(pieces, Parser(total, sizePerRequest)).ranges[k], total, sizePerRequest)
  {
    var m := |pieces| - 1;
    var before := ScanPieces(pieces[..m], Parser(total, sizePerRequest));
    PieceIsAnchored(pieces[m], total, sizePerRequest, before.noOverlap);
    if k < |before.ranges| {
      EveryRangeIsAnchored(pieces[..m], total, sizePerRequest, k);
    }
  }

  /** A spec whose last position precedes its first, which section 2.1 calls invalid, is refused exactly
      when it ends before the last byte of the content; otherwise it yields that last byte, because the
      bounds are compared after the first one has been clamped. */
  lemma ReversedSpec(first: nat, last: nat, total: int, sizePerRequest: int, noOverlap: bool)
    requires total > 0 && last < first <= MAX_INT64
    ensures ParseTrimmed(PrintSpec(FromTo(first, last)), total, sizePerRequest, noOverlap)
         == if last < total - 1 then Bad else Good(HttpRange(total - 1, 1, total), true)
  {
    CutAtDash(Digits(first), Digits(last), total, sizePerRequest, noOverlap);
    TrimDigits(first);
    TrimDigits(last);
    ReversedBounds(first, last, total, sizePerRequest, noOverlap);
  }

  lemma ReversedBounds(first: nat, last: nat, total: int, sizePerRequest: int, noOverlap: bool)
    requires total > 0 && last < first <= MAX_INT64
    ensures ParseBounds(Digits(first), Digits(last), total, sizePerRequest, noOverlap)
         == if last < total - 1 then Bad else Good(HttpRange(total - 1, 1, total), true)
  {
    ParseNumber(first);
    ParseNumber(last);
  }

  // ----- the grammar of a piece -----

  /** The text is a 64-bit number, with an optional sign. */
  ghost predicate Reads(t: string, n: int) {
    -0x8000_0000_0000_0000 <= n < 0x8000_0000_0000_0000
    && exists sign, digits :: Signed(t, sign, digits, n)
  }

  ghost predicate Signed(t: string, sign: string, digits: string, n: int) {
    && t == sign + digits && digits != "" && AllDigits(digits)
    && ((sign == "" && n == Number(digits))
        || (sign == "+" && n == Number(digits))
        || (sign == "-" && n == 0 - Number(digits)))
  }

  lemma ParseIntIff(t: string, n: int)
    ensures ParseInt(t) == Some(n) <==> Reads(t, n)
  {
    if ParseInt(t) == Some(n) {
      ParsedReads(t, n);
    }
    if Reads(t, n) {
      var sign, digits :| Signed(t, sign, digits, n);
      SignedParses(t, sign, digits, n);
    }
  }

  lemma ParsedReads(t: string, n: int)
    requires ParseInt(t) == Some(n)
    ensures Reads(t, n)
  {
    if t[0] == '+' || t[0] == '-' {
      assert t == [t[0]] + t[1..];
      assert Signed(t, [t[0]], t[1..], n);
    } else {
      assert t == "" + t;
      assert Signed(t, "", t, n);
    }
  }

  lemma SignedParses(t: string, sign: string, digits: string, n: int)
    requires Signed(t, sign, digits, n) && -MAX_INT64 - 1 <= n <= MAX_INT64
    ensures ParseInt(t) == Some(n)
  {
    if sign == "" {
      assert t == digits && IsDigit(t[0]);
    } else {
      assert t[0] == sign[0] && t[1..] == digits;
    }
  }

  predicate Trimmed(s: string) {
    s != "" ==> !IsSpace(s[0]) && !IsSpace(s[|s| - 1])
  }

  lemma TrimAround(pre: string, s: string, post: string)
    requires AllSpace(pre) && AllSpace(post) && Trimmed(s)
    ensures Trim(pre + s + post) == s
  {
    if s == "" {
      TrimBlank(pre + s + post);
    } else {
      TrimPads(pre, s, post);
    }
  }

  /** A piece with a dash, split at its first one. */
  lemma DashPiece(pre: string, start: string, in1: string, in2: string, end: string, post: string,
                  total: int, sizePerRequest: int, noOverlap: bool)
    requires AllSpace(pre) && AllSpace(in1) && AllSpace(in2) && AllSpace(post)
    requires '-' !in start && Trimmed(start) && Trimmed(end)
    ensures ParsePiece(pre + start + in1 + "-" + in2 + end + post, total, sizePerRequest, noOverlap)
         == ParseBounds(start, end, total, sizePerRequest, noOverlap)
  {
    var left, right := pre + start + in1, in2 + end + post;
    var piece := left + "-" + right;
    assert pre + start + in1 + "-" + in2 + end + post == piece;
    TrimAround(pre, start, in1);
    TrimAround(in2, end, post);
    SpacesHoldNoDash(pre);
    SpacesHoldNoDash(in1);
    assert '-' !in left;
    CutTrimmed(left, right, total, sizePerRequest, noOverlap);
  }

  lemma SpacesHoldNoDash(s: string)
    requires AllSpace(s)
    ensures '-' !in s
  {
  }

  /** Trimming a text with a dash trims the outer ends of its two sides. */
  lemma TrimKeepsSides(left: string, right: string)
    ensures Trim(left + "-" + right) == TrimLeft(left) + "-" + TrimRight(right)
  {
    LeftOfDash(left, "-" + right);
    RightOfDash(TrimLeft(left) + "-", right);
    assert left + "-" + right == left + ("-" + right);
    assert TrimLeft(left) + ("-" + right) == TrimLeft(left) + "-" + right;
  }

  lemma {:induction false} LeftOfDash(s: string, t: string)
    requires t != "" && !IsSpace(t[0])
    ensures TrimLeft(s + t) == TrimLeft(s) + t
  {
    if s == "" {
      assert s + t == t;
    } else {
      assert (s + t)[1..] == s[1..] + t;
      LeftOfDash(s[1..], t);
    }
  }

  lemma {:induction false} RightOfDash(s: string, t: string)
    requires s != "" && !IsSpace(s[|s| - 1])
    ensures TrimRight(s + t) == s + TrimRight(t)
  {
    if t == "" {
      assert s + t == s;
    } else {
      var m := |t| - 1;
      assert (s + t)[..|s + t| - 1] == s + t[..m];
      RightOfDash(s, t[..m]);
    }
  }

  lemma CutTrimmed(left: string, right: string, total: int, sizePerRequest: int, noOverlap: bool)
    requires '-' !in left
    ensures ParsePiece(left + "-" + right, total, sizePerRequest, noOverlap)
         == ParseBounds(Trim(left), Trim(right), total, sizePerRequest, noOverlap)
  {
    TrimKeepsSides(left, right);
    var a, b := TrimLeft(left), TrimRight(right);
    TrimLeftIsSuffix(left);
    assert '-' !in a;
    var ra := a + ['-'] + b;
    assert ra == a + "-" + b;
    FindAfter(a, '-', b);
    assert ra[..|a|] == a && ra[|a| + 1..] == b;
    TrimTwice(left);
    TrimTwice(right);
  }

  lemma {:induction false} TrimLeftIsSuffix(s: string)
    ensures |TrimLeft(s)| <= |s| && TrimLeft(s) == s[|s| - |TrimLeft(s)|..]
    ensures forall c :: c in TrimLeft(s) ==> c in s
  {
    if s != "" && IsSpace(s[0]) {
      TrimLeftIsSuffix(s[1..]);
    }
  }

  /** One side is already trimmed. */
  lemma TrimTwice(s: string)
    ensures Trim(TrimLeft(s)) == Trim(s)
    ensures Trim(TrimRight(s)) == Trim(s)
  {
    var pre, post := Around(s);
    var body := Trim(s);
    if body == "" {
      TrimBlank(TrimLeft(s));
      TrimBlank(TrimRight(s));
    } else {
      TrimOneSide(pre, body, post);
    }
  }

  lemma TrimOneSide(pre: string, body: string, post: string)
    requires AllSpace(pre) && AllSpace(post) && body != "" && Trimmed(body)
    ensures Trim(TrimLeft(pre + body + post)) == body
    ensures Trim(TrimRight(pre + body + post)) == body
  {
    var right, left := body + post, pre + body;
    assert pre + body + post == pre + right == left + post;
    TrimLeftPad(pre, right);
    TrimRightPad(left, post);
    TrimAround("", body, post);
    TrimAround(pre, body, "");
    assert "" + body + post == right && pre + body + "" == left;
  }

  /** Every text is its trimmed self with white space around. */
  lemma Around(s: string) returns (pre: string, post: string)
    ensures s == pre + Trim(s) + post && AllSpace(pre) && AllSpace(post) && Trimmed(Trim(s))
    ensures Trim(s) == "" ==> AllSpace(s) && AllSpace(TrimLeft(s)) && AllSpace(TrimRight(s))
  {
    pre := LeftPad(s);
    post := RightPad(TrimLeft(s));
    BlankSides(s);
  }

  lemma {:induction false} LeftPad(s: string) returns (pre: string)
    ensures s == pre + TrimLeft(s) && AllSpace(pre)
    ensures TrimLeft(s) != "" ==> !IsSpace(TrimLeft(s)[0])
  {
    if s != "" && IsSpace(s[0]) {
      var p := LeftPad(s[1..]);
      pre := [s[0]] + p;
      assert s == [s[0]] + s[1..];
    } else {
      pre := "";
    }
  }

  lemma {:induction false} RightPad(s: string) returns (post: string)
    ensures s == TrimRight(s) + post && AllSpace(post)
    ensures TrimRight(s) != "" ==> !IsSpace(TrimRight(s)[|TrimRight(s)| - 1])
    ensures TrimRight(s) != "" ==> TrimRight(s)[0] == s[0]
  {
    if s != "" && IsSpace(s[|s| - 1]) {
      var p := RightPad(s[..|s| - 1]);
      post := p + [s[|s| - 1]];
      assert s == s[..|s| - 1] + [s[|s| - 1]];
    } else {
      post := "";
    }
  }

  lemma BlankSides(s: string)
    ensures Trim(s) == "" ==> AllSpace(s) && AllSpace(TrimLeft(s)) && AllSpace(TrimRight(s))
  {
    var pre := LeftPad(s);
    var post := RightPad(TrimLeft(s));
    if Trim(s) == "" {
      assert s == pre + post;
      var right := RightPad(s);
      assert forall i :: 0 <= i < |TrimRight(s)| ==> TrimRight(s)[i] == s[i];
    }
  }

  /** Every piece is blank, or has no dash, or is split at its first dash. */
  lemma PieceShapes(piece: string)
    returns (pre: string, start: string, in1: string, in2: string, end: string, post: string)
    ensures AllSpace(pre) && AllSpace(in1) && AllSpace(in2) && AllSpace(post) && Trimmed(start) && Trimmed(end)
    ensures '-' !in start
    ensures '-' in piece ==> piece == pre + start + in1 + "-" + in2 + end + post
    ensures '-' !in piece ==> piece == pre + start + in1
  {
    var k := Find(piece, '-');
    var left, right := piece[..k], if k < |piece| then piece[k + 1..] else "";
    pre, in1 := Around(left);
    in2, post := Around(right);
    start, end := Trim(left), Trim(right);
    FirstDash(piece, k);
    TrimIsPart(left);
    Regroup(left, in2, end, post);
  }

  lemma FirstDash(piece: string, k: nat)
    requires k <= |piece| && (k < |piece| ==> piece[k] == '-') && forall i :: 0 <= i < k ==> piece[i] != '-'
    ensures '-' !in piece[..k] && ('-' in piece <==> k < |piece|)
    ensures k < |piece| ==> piece == piece[..k] + "-" + piece[k + 1..]
    ensures k == |piece| ==> piece[..k] == piece
  {
    if k < |piece| {
      assert piece == piece[..k] + [piece[k]] + piece[k + 1..];
    }
  }

  lemma Regroup(left: string, a: string, b: string, c: string)
    ensures left + "-" + a + b + c == left + "-" + (a + b + c)
  {
  }

  lemma TrimIsPart(s: string)
    ensures forall c :: c in Trim(s) ==> c in s
  {
    var pre, post := Around(s);
    assert forall c :: c in Trim(s) ==> c in pre + Trim(s) + post;
  }

  /** A piece without a dash is skipped if it is blank, and bad otherwise. */
  lemma NoDashPiece(piece: string, total: int, sizePerRequest: int, noOverlap: bool)
    requires '-' !in piece
    ensures ParsePiece(piece, total, sizePerRequest, noOverlap) == if AllSpace(piece) then Skip else Bad
  {
    var pre, post := Around(piece);
    if AllSpace(piece) {
      TrimBlank(piece);
    } else {
      assert Trim(piece) != "";
      assert forall c :: c in Trim(piece) ==> c in piece;
    }
  }

  /** What a piece with nothing before its dash means: the number after it, unsigned or with a plus, is a
      suffix length, cut to the content. */
  lemma SuffixMeaning(pre: string, in1: string, in2: string, end: string, post: string,
                      total: int, sizePerRequest: int, noOverlap: bool, n: int)
    requires AllSpace(pre) && AllSpace(in1) && AllSpace(in2) && AllSpace(post) && Trimmed(end)
    ensures var p := ParsePiece(pre + in1 + "-" + in2 + end + post, total, sizePerRequest, noOverlap);
            && (p.Bad? <==> end == "" || end[0] == '-' || forall m: nat :: !Reads(end, m))
            && (end != "" && end[0] != '-' && n >= 0 && Reads(end, n) ==>
                  p == Good(HttpRange(total - Min(n, total), Min(n, total), total), noOverlap))
  {
    assert pre + "" + in1 + "-" + in2 + end + post == pre + in1 + "-" + in2 + end + post;
    DashPiece(pre, "", in1, in2, end, post, total, sizePerRequest, noOverlap);
    ParseIntIff(end, n);
    ReadsNatIff(end);
  }

  lemma ReadsNatIff(t: string)
    ensures (exists m: nat :: Reads(t, m)) <==> ParseInt(t).Some? && ParseInt(t).value >= 0
  {
    if m: nat :| Reads(t, m) {
      ParseIntIff(t, m);
    }
    if ParseInt(t).Some? && ParseInt(t).value >= 0 {
      ParseIntIff(t, ParseInt(t).value);
    }
  }

  /** What a piece with a first position means. The position must be a number that is not negative; it is
      cut to the content and raises the flag when it lies beyond. The last position, if there is one,
      must be a number not before the cut first one, and is cut too; without one the range has the length
      of a request, or of what is left if that is less and the flag is down. */
  lemma FirstMeaning(pre: string, start: string, in1: string, in2: string, end: string, post: string,
                     total: int, sizePerRequest: int, noOverlap: bool, i: int, j: int)
    requires AllSpace(pre) && AllSpace(in1) && AllSpace(in2) && AllSpace(post)
    requires start != "" && '-' !in start && Trimmed(start) && Trimmed(end)
    ensures var p := ParsePiece(pre + start + in1 + "-" + in2 + end + post, total, sizePerRequest, noOverlap);
            var first, beyond := Min(i, total - 1), noOverlap || i >= total;
            && ((forall m: nat :: !Reads(start, m)) ==> p == Bad)
            && (i >= 0 && Reads(start, i) && end == "" ==>
                  var length := if beyond then sizePerRequest else Min(sizePerRequest, total - first);
                  p == Good(HttpRange(first, length, total), beyond))
            && (i >= 0 && Reads(start, i) && end != "" && (forall m: int :: !Reads(end, m)) ==> p == Bad)
            && (i >= 0 && Reads(start, i) && end != "" && Reads(end, j) ==>
                  p == if j < first then Bad
                       else Good(HttpRange(first, Min(j, total - 1) - first + 1, total), beyond))
  {
    DashPiece(pre, start, in1, in2, end, post, total, sizePerRequest, noOverlap);
    BoundsMeaning(start, end, total, sizePerRequest, noOverlap, i, j);
  }

  lemma BoundsMeaning(start: string, end: string, total: int, sizePerRequest: int, noOverlap: bool, i: int, j: int)
    requires start != ""
    ensures var p := ParseBounds(start, end, total, sizePerRequest, noOverlap);
            var first, beyond := Min(i, total - 1), noOverlap || i >= total;
            && ((forall m: nat :: !Reads(start, m)) ==> p == Bad)
            && (i >= 0 && Reads(start, i) && end == "" ==>
                  var length := if beyond then sizePerRequest else Min(sizePerRequest, total - first);
                  p == Good(HttpRange(first, length, total), beyond))
            && (i >= 0 && Reads(start, i) && end != "" && (forall m: int :: !Reads(end, m)) ==> p == Bad)
            && (i >= 0 && Reads(start, i) && end != "" && Reads(end, j) ==>
                  p == if j < first then Bad
                       else Good(HttpRange(first, Min(j, total - 1) - first + 1, total), beyond))
  {
    ReadsNatIff(start);
    if end == "" {
      OpenBounds(start, total, sizePerRequest, noOverlap, i);
    } else {
      ClosedBounds(start, end, total, sizePerRequest, noOverlap, i, j);
    }
  }

  lemma OpenBounds(start: string, total: int, sizePerRequest: int, noOverlap: bool, i: int)
    requires start != ""
    ensures var first, beyond := Min(i, total - 1), noOverlap || i >= total;
            var length := if beyond then sizePerRequest else Min(sizePerRequest, total - first);
            i >= 0 && Reads(start, i) ==>
              ParseBounds(start, "", total, sizePerRequest, noOverlap) == Good(HttpRange(first, length, total), beyond)
  {
    ParseIntIff(start, i);
  }

  lemma ClosedBounds(start: string, end: string, total: int, sizePerRequest: int, noOverlap: bool, i: int, j: int)
    requires start != "" && end != ""
    ensures var p := ParseBounds(start, end, total, sizePerRequest, noOverlap);
            var first, beyond := Min(i, total - 1), noOverlap || i >= total;
            && (i >= 0 && Reads(start, i) && (forall m: int :: !Reads(end, m)) ==> p == Bad)
            && (i >= 0 && Reads(start, i) && Reads(end, j) ==>
                  p == if j < first then Bad
                       else Good(HttpRange(first, Min(j, total - 1) - first + 1, total), beyond))
  {
    ParseIntIff(start, i);
    ParseIntIff(end, j);
    ReadsIff(end);
  }

  lemma ReadsIff(t: string)
    ensures (exists m: int :: Reads(t, m)) <==> ParseInt(t).Some?
  {
    if m: int :| Reads(t, m) {
      ParseIntIff(t, m);
    }
    if ParseInt(t).Some? {
      ParseIntIff(t, ParseInt(t).value);
    }
  }

  /** The request for the range a Content-Range header announces. */
  function Again(r: HttpRange): (spec: Spec)
    requires 0 <= r.start && r.length >= 1
  {
    FromTo(r.start, r.start + r.length - 1)
  }

  /** Asking for the range a Content-Range header announces gives that range, whatever the size of one
      request. */
  lemma AnnouncedRangeIsServed(r: HttpRange, sizePerRequest: int)
    requires 0 <= r.start && r.length >= 1 && r.start + r.length <= r.total
    requires r.start + r.length - 1 <= MAX_INT64
    ensures Parse(PREFIX + PrintSpec(Again(r)), r.total, sizePerRequest) == Ranges([r])
  {
    var es := [Range("", Again(r), "")];
    OneElement(Again(r));
    ParsePrinted(es, r.total, sizePerRequest);
    AnnouncedMeaning(es, r, sizePerRequest);
  }

  lemma OneElement(spec: Spec)
    ensures PrintHeader([Range("", spec, "")]) == PREFIX + PrintSpec(spec)
  {
    var es := [Range("", spec, "")];
    assert PrintElements(es) == [PrintElement(es[0])];
    assert "" + PrintSpec(spec) + "" == PrintSpec(spec);
  }

  lemma AnnouncedMeaning(es: seq<Element>, r: HttpRange, sizePerRequest: int)
    requires 0 <= r.start && r.length >= 1 && r.start + r.length <= r.total
    requires es == [Range("", Again(r), "")]
    ensures Meanings(es, r.total, sizePerRequest) == [r]
  {
    assert Meanings(es[..0], r.total, sizePerRequest) == [];
    assert Meaning(Again(r), r.total, sizePerRequest, AnyBeyond(es, r.total)) == r;
  }

  /** The header announces the request that asks for it, and the total. */
  lemma HeaderText(r: HttpRange)
    requires 0 <= r.start && r.length >= 1
    ensures Header(r) == "bytes " + PrintSpec(Again(r)) + "/" + Decimal(r.total)
  {
    var a, b, t := Digits(r.start), Digits(r.start + r.length - 1), Decimal(r.total);
    assert "bytes " + a + "-" + b + "/" + t == "bytes " + (a + "-" + b) + "/" + t;
  }
}
