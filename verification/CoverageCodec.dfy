/**
 The text form of port coverage: `Q1` envelopes with owner ranges and a native bit map, and `R1`
 envelopes with compact routes.
 */
module CoverageCodec {
  import opened Wrappers
  import opened Int32
  import opened Decimal
  import opened Fields
  import opened Endpoints

  const MaxPieces: nat := 256

  datatype CodecError = UnboundTarget

  type Range = (int, int)

  // ---------------------------------------------------------------------------
  // Encoding
  // ---------------------------------------------------------------------------

  function Envelope(head: string, middle: string, tail: string): string {
    head + middle + ['|'] + tail
  }

  function RouteText(r: CompactPortRoute): string {
    Join([IntText(r.ownerLow), IntText(r.ownerHigh), NatText(r.targetPathId), IntText(r.targetLow)], ':')
  }

  function RouteTexts(routes: seq<CompactPortRoute>): (texts: seq<string>)
    ensures |texts| == |routes|
  {
    seq(|routes|, i requires 0 <= i < |routes| => RouteText(routes[i]))
  }

  function RoutesEnvelope(routes: seq<CompactPortRoute>): string
    requires routes != []
  {
    Envelope("R1;", Join(RouteTexts(routes), ';'), "")
  }

  function RangeText(r: Range): string {
    IntText(r.0) + [':'] + IntText(r.1)
  }

  function RangeTexts(coverage: seq<Range>): (texts: seq<string>)
    ensures |texts| == |coverage|
  {
    seq(|coverage|, i requires 0 <= i < |coverage| => RangeText(coverage[i]))
  }

  function CoverageEnvelope(coverage: seq<Range>, native: string): string
    requires coverage != []
  {
    Envelope("Q1;", Join(RangeTexts(coverage), ';'), native)
  }

  /** A target id that stands for no path. */
  predicate Bound(routes: seq<CompactPortRoute>) {
    forall i :: 0 <= i < |routes| ==> routes[i].targetPathId != UINT32_MAX
  }

  method EncodeRoutes(routes: seq<CompactPortRoute>) returns (r: Result<string, CodecError>)
    requires routes != []
    ensures r == if Bound(routes) then Ok(RoutesEnvelope(routes)) else Err(UnboundTarget)
  {
    ghost var texts := RouteTexts(routes);
    var out := "";
    for i := 0 to |routes|
      invariant out == JoinFirst(texts, i, ';')
      invariant forall j :: 0 <= j < i ==> routes[j].targetPathId != UINT32_MAX
    {
      if routes[i].targetPathId == UINT32_MAX {
        return Err(UnboundTarget);
      }
      JoinNext(texts, i, ';');
      if i > 0 {
        out := out + [';'];
      }
      out := out + RouteText(routes[i]);
    }
    JoinAll(texts, ';');
    r := Ok(Envelope("R1;", out, ""));
  }

  method EncodeCoverage(coverage: seq<Range>, native: string) returns (text: string)
    requires coverage != []
    ensures text == CoverageEnvelope(coverage, native)
  {
    ghost var texts := RangeTexts(coverage);
    var out := "";
    for i := 0 to |coverage|
      invariant out == JoinFirst(texts, i, ';')
    {
      JoinNext(texts, i, ';');
      if i > 0 {
        out := out + [';'];
      }
      out := out + RangeText(coverage[i]);
    }
    JoinAll(texts, ';');
    text := Envelope("Q1;", out, native);
  }

  /** What the texts look like: bits 0 to 3 and bit 12 with a native bit map. */
  lemma {:induction false} CoverageText()
    ensures CoverageEnvelope([(0, 3), (12, 12)], "[3:0]") == "Q1;0:3;12:12|[3:0]"
  {
    SmallTexts();
    assert RangeText((0, 3)) == "0:3" && RangeText((12, 12)) == "12:12";
    assert RangeTexts([(0, 3), (12, 12)]) == ["0:3", "12:12"];
    assert Join(["0:3", "12:12"], ';') == "0:3;12:12";
  }

  /** Bits 0 to 3 sent to path 5 from its bit 8 on. */
  lemma {:induction false} RoutesText()
    ensures RoutesEnvelope([CompactPortRoute(0, 3, 8, 5, "", 0)]) == "R1;0:3:5:8|"
  {
    SmallTexts();
    var r := CompactPortRoute(0, 3, 8, 5, "", 0);
    assert Join(["0", "3", "5", "8"], ':') == "0:3:5:8" by {
      assert Join(["5", "8"], ':') == "5:8" && ["0", "3", "5", "8"][1..] == ["3", "5", "8"];
      assert ["3", "5", "8"][1..] == ["5", "8"];
    }
    assert RouteText(r) == "0:3:5:8";
    assert RouteTexts([r]) == ["0:3:5:8"];
    assert Join(["0:3:5:8"], ';') == "0:3:5:8";
  }

  lemma {:induction false} SmallTexts()
    ensures IntText(0) == "0" && IntText(3) == "3" && IntText(8) == "8" && NatText(5) == "5" && IntText(12) == "12"
  {
    assert NatText(1) == "1";
  }

  /** Routes first, then coverage, then the plain bit map. */
  method EncodePortQueryBitmap(e: EndpointRecord) returns (r: Result<string, CodecError>)
    ensures e.compactPortRoutes != [] ==>
              r == if Bound(e.compactPortRoutes) then Ok(RoutesEnvelope(e.compactPortRoutes)) else Err(UnboundTarget)
    ensures e.compactPortRoutes == [] && e.portQueryCoverage != [] ==>
              r == Ok(CoverageEnvelope(e.portQueryCoverage, e.bitMap))
    ensures e.compactPortRoutes == [] && e.portQueryCoverage == [] ==> r == Ok(e.bitMap)
  {
    if e.compactPortRoutes != [] {
      r := EncodeRoutes(e.compactPortRoutes);
    } else if e.portQueryCoverage == [] {
      r := Ok(e.bitMap);
    } else {
      var text := EncodeCoverage(e.portQueryCoverage, e.bitMap);
      r := Ok(text);
    }
  }

  // ---------------------------------------------------------------------------
  // Decoding routes
  // ---------------------------------------------------------------------------

  /** Unsigned, without superfluous zeros. */
  function ParseUint32(text: string): (r: Option<nat>)
    ensures r.Some? ==> r.value <= UINT32_MAX && text == NatText(r.value)
  {
    if text == "" || (|text| > 1 && text[0] == '0') || !IsDigit(text[0]) then None
    else
      match ParseNat(text)
      case None => None
      case Some(v) =>
        ShortestIsText(text);
        if v <= UINT32_MAX then Some(v) else None
  }

  lemma {:induction false} ParseUint32Text(n: nat)
    requires n <= UINT32_MAX
    ensures ParseUint32(NatText(n)) == Some(n)
  {
    ParseNatText(n);
    NatTextShortest(n);
    assert IsDigit(NatText(n)[0]);
  }

  /** All numbers of the fields, if all parse. */
  function ParseFields(fields: seq<string>): (r: Option<seq<nat>>)
    ensures r.Some? ==> |r.value| == |fields|
    ensures r.Some? ==> forall i :: 0 <= i < |fields| ==> r.value[i] <= UINT32_MAX && fields[i] == NatText(r.value[i])
  {
    if fields == [] then Some([])
    else
      match (ParseFields(fields[..|fields| - 1]), ParseUint32(fields[|fields| - 1]))
      case (Some(front), Some(v)) => Some(front + [v])
      case _ => None
  }

  lemma {:induction false} ParseFieldsTexts(numbers: seq<nat>, fields: seq<string>)
    requires |fields| == |numbers|
    requires forall i :: 0 <= i < |numbers| ==> numbers[i] <= UINT32_MAX && fields[i] == NatText(numbers[i])
    ensures ParseFields(fields) == Some(numbers)
  {
    if fields != [] {
      var n := |fields| - 1;
      ParseFieldsTexts(numbers[..n], fields[..n]);
      ParseUint32Text(numbers[n]);
      assert numbers == numbers[..n] + [numbers[n]];
    }
  }

  lemma {:induction false} ParseFieldsPrefix(fields: seq<string>, i: nat)
    requires i < |fields| && (ParseFields(fields[..i]).None? || ParseUint32(fields[i]).None?)
    ensures ParseFields(fields).None?
    decreases |fields|
  {
    var n := |fields| - 1;
    ParseFieldsLast(fields);
    if i < n {
      assert fields[..n][..i] == fields[..i];
      ParseFieldsPrefix(fields[..n], i);
    }
  }

  lemma {:induction false} ParseFieldsLast(fields: seq<string>)
    requires fields != []
    ensures var n := |fields| - 1;
            ParseFields(fields).None? <==> ParseFields(fields[..n]).None? || ParseUint32(fields[n]).None?
  {}

  /** Four numbers with colons between them. */
  function ParseQuad(piece: string): Option<seq<nat>> {
    var fields := Split(piece, ':');
    if |fields| == 4 then ParseFields(fields) else None
  }

  function NextLow(routes: seq<CompactPortRoute>): int {
    if routes == [] then 0 else routes[|routes| - 1].ownerHigh + 1
  }

  /** The route may follow: it continues without a gap and could not be part of the one before. */
  predicate Follows(routes: seq<CompactPortRoute>, r: CompactPortRoute) {
    && r.ownerLow == NextLow(routes) && 0 <= r.ownerLow <= r.ownerHigh <= INT32_MAX
    && 0 <= r.targetLow && r.targetLow + r.ownerHigh - r.ownerLow <= INT32_MAX
    && r.targetPathId <= UINT32_MAX
    && |routes| < MaxPieces
    && (routes != [] ==>
          var last := routes[|routes| - 1];
          !(last.targetPathId == r.targetPathId && last.targetLow - last.ownerLow == r.targetLow - r.ownerLow))
  }

  /** A decoded route; names and caches are filled in later. */
  predicate Plain(r: CompactPortRoute) {
    r.targetPath == "" && r.targetSignalId == UINT32_MAX
  }

  /** Gap-free from bit 0, no two neighbours that could be one. */
  ghost predicate ValidRoutes(routes: seq<CompactPortRoute>) {
    forall k :: 0 <= k < |routes| ==> Follows(routes[..k], routes[k]) && Plain(routes[k])
  }

  /** The same affine map from owner bits to target bits of one path. */
  predicate SameMap(a: CompactPortRoute, b: CompactPortRoute) {
    a.targetPathId == b.targetPathId && a.targetLow - a.ownerLow == b.targetLow - b.ownerLow
  }

  predicate InRange(r: CompactPortRoute) {
    && 0 <= r.ownerLow <= r.ownerHigh <= 0x7FFF_FFFF && 0 <= r.targetLow
    && r.targetLow + r.ownerHigh - r.ownerLow <= 0x7FFF_FFFF && r.targetPathId <= 0xFFFF_FFFF
  }

  /**
   That is: at most 256 routes of 32-bit positions, the first from bit 0, each from right after
   the one before, and no two neighbours by the same map.
   */
  lemma {:induction false} ValidRoutesMeans(routes: seq<CompactPortRoute>)
    ensures ValidRoutes(routes) <==>
              && |routes| <= 256 && (routes != [] ==> routes[0].ownerLow == 0)
              && (forall k :: 0 <= k < |routes| ==> InRange(routes[k]) && Plain(routes[k]))
              && (forall j, k :: 0 <= j && k == j + 1 && k < |routes| ==>
                    routes[k].ownerLow == routes[j].ownerHigh + 1 && !SameMap(routes[j], routes[k]))
  {
    assert INT32_MAX == 0x7FFF_FFFF && UINT32_MAX == 0xFFFF_FFFF;
    if ValidRoutes(routes) {
      assert |routes| > 0 ==> Follows(routes[..|routes| - 1], routes[|routes| - 1]) && Follows(routes[..0], routes[0]);
      forall j, k | 0 <= j && k == j + 1 && k < |routes|
        ensures routes[k].ownerLow == routes[j].ownerHigh + 1 && !SameMap(routes[j], routes[k])
      {
        assert Follows(routes[..k], routes[k]) && routes[..k][k - 1] == routes[j];
      }
    } else {
      var k :| 0 <= k < |routes| && !(Follows(routes[..k], routes[k]) && Plain(routes[k]));
      assert k > 0 ==> routes[..k][k - 1] == routes[k - 1];
    }
  }

  function RouteOf(n: seq<nat>): (r: CompactPortRoute)
    requires |n| == 4
    ensures Plain(r)
  {
    CompactPortRoute(n[0], n[1], n[3], n[2], "", UINT32_MAX)
  }

  function NextRoute(routes: seq<CompactPortRoute>, piece: string): Option<seq<CompactPortRoute>> {
    match ParseQuad(piece)
    case None => None
    case Some(n) => if |n| == 4 && Follows(routes, RouteOf(n)) then Some(routes + [RouteOf(n)]) else None
  }

  function DecodePieces(pieces: seq<string>, routes: seq<CompactPortRoute>): Option<seq<CompactPortRoute>> {
    if pieces == [] then Some(routes)
    else
      match NextRoute(routes, pieces[0])
      case None => None
      case Some(more) => DecodePieces(pieces[1..], more)
  }

  /** What an `R1` text means. */
  function Routes(text: string): Option<seq<CompactPortRoute>> {
    var split := Find(text, '|');
    if |text| < 3 || text[..3] != "R1;" || split + 1 != |text| || split <= 3 then None
    else DecodePieces(Split(text[3..split], ';'), [])
  }

  lemma {:induction false} RouteTextFields(r: CompactPortRoute)
    requires r.ownerLow >= 0 && r.ownerHigh >= 0 && r.targetLow >= 0
    ensures Split(RouteText(r), ':') ==
            [NatText(r.ownerLow), NatText(r.ownerHigh), NatText(r.targetPathId), NatText(r.targetLow)]
    ensures Lacks(RouteText(r), ';') && Lacks(RouteText(r), '|') && RouteText(r) != ""
  {
    var fields := [NatText(r.ownerLow), NatText(r.ownerHigh), NatText(r.targetPathId), NatText(r.targetLow)];
    assert RouteText(r) == Join(fields, ':');
    FieldsText(fields);
  }

  /** Four digit texts, joined. */
  lemma {:induction false} FieldsText(fields: seq<string>)
    requires |fields| == 4 && forall i :: 0 <= i < |fields| ==> fields[i] != "" && AllDigits(fields[i])
    ensures Split(Join(fields, ':'), ':') == fields
    ensures Lacks(Join(fields, ':'), ';') && Lacks(Join(fields, ':'), '|') && Join(fields, ':') != ""
  {
    SplitJoin(fields, ':');
    JoinLacks(fields, ':', ';');
    JoinLacks(fields, ':', '|');
    JoinLength(fields, ':');
  }

  lemma {:induction false} NextRouteOfText(routes: seq<CompactPortRoute>, r: CompactPortRoute)
    requires Follows(routes, r) && Plain(r)
    ensures NextRoute(routes, RouteText(r)) == Some(routes + [r])
  {
    RouteTextFields(r);
    ParseFieldsTexts([r.ownerLow, r.ownerHigh, r.targetPathId, r.targetLow], Split(RouteText(r), ':'));
  }

  lemma {:induction false} FirstPiece(piece: string, rest: seq<string>, routes: seq<CompactPortRoute>,
                                      more: seq<CompactPortRoute>)
    requires NextRoute(routes, piece) == Some(more)
    ensures DecodePieces([piece] + rest, routes) == DecodePieces(rest, more)
  {
    assert ([piece] + rest)[1..] == rest;
  }

  lemma {:induction false} DecodeTexts(routes: seq<CompactPortRoute>, k: nat)
    requires ValidRoutes(routes) && k <= |routes|
    ensures DecodePieces(RouteTexts(routes)[k..], routes[..k]) == Some(routes)
    decreases |routes| - k
  {
    if k < |routes| {
      DecodeNextText(routes, k);
      DecodeTexts(routes, k + 1);
    } else {
      assert routes[..k] == routes;
    }
  }

  lemma {:induction false} DecodeNextText(routes: seq<CompactPortRoute>, k: nat)
    requires ValidRoutes(routes) && k < |routes|
    ensures DecodePieces(RouteTexts(routes)[k..], routes[..k]) ==
            DecodePieces(RouteTexts(routes)[k + 1..], routes[..k + 1])
  {
    assert routes[..k + 1] == routes[..k] + [routes[k]];
    NextRouteOfText(routes[..k], routes[k]);
    RouteTextsFrom(routes, k);
    FirstPiece(RouteText(routes[k]), RouteTexts(routes)[k + 1..], routes[..k], routes[..k + 1]);
  }

  lemma {:induction false} EnvelopeSplits(head: string, middle: string, tail: string)
    requires |head| == 3 && Lacks(head, '|') && Lacks(middle, '|')
    ensures var text := Envelope(head, middle, tail);
            && Find(text, '|') == 3 + |middle|
            && text[..3] == head && text[3..3 + |middle|] == middle && text[3 + |middle| + 1..] == tail
  {
    var text := Envelope(head, middle, tail);
    FindSplits(head + middle, '|', tail);
  }

  /** Valid routes survive encoding and decoding. */
  lemma {:induction false} RoutesRoundTrip(routes: seq<CompactPortRoute>)
    requires ValidRoutes(routes) && routes != []
    ensures Routes(RoutesEnvelope(routes)) == Some(routes)
  {
    var texts := RouteTexts(routes);
    forall i | 0 <= i < |texts|
      ensures Lacks(texts[i], ';') && Lacks(texts[i], '|') && texts[i] != ""
    {
      assert Follows(routes[..i], routes[i]);
      RouteTextFields(routes[i]);
    }
    var middle := Join(texts, ';');
    SplitJoin(texts, ';');
    JoinLacks(texts, ';', '|');
    JoinLength(texts, ';');
    EnvelopeSplits("R1;", middle, "");
    DecodeTexts(routes, 0);
    assert texts[0..] == texts;
  }

  lemma {:induction false} NextRouteMeans(routes: seq<CompactPortRoute>, piece: string)
    requires NextRoute(routes, piece).Some?
    ensures var more := NextRoute(routes, piece).value;
            && |more| == |routes| + 1 && more[..|routes|] == routes
            && Follows(routes, more[|routes|]) && Plain(more[|routes|]) && piece == RouteText(more[|routes|])
  {
    var n := ParseQuad(piece).value;
    var fields := Split(piece, ':');
    JoinSplit(piece, ':');
    assert fields == [NatText(n[0]), NatText(n[1]), NatText(n[2]), NatText(n[3])];
  }

  lemma {:induction false} RouteTextsFrom(routes: seq<CompactPortRoute>, k: nat)
    requires k < |routes|
    ensures RouteTexts(routes)[k..] == [RouteText(routes[k])] + RouteTexts(routes)[k + 1..]
  {}

  lemma {:induction false} ValidExtends(routes: seq<CompactPortRoute>, more: seq<CompactPortRoute>)
    requires ValidRoutes(routes) && |more| == |routes| + 1 && more[..|routes|] == routes
    requires Follows(routes, more[|routes|]) && Plain(more[|routes|])
    ensures ValidRoutes(more)
  {
    forall k | 0 <= k < |more|
      ensures Follows(more[..k], more[k]) && Plain(more[k])
    {
      if k < |routes| {
        assert more[..k] == routes[..k] && more[k] == routes[k];
      }
    }
  }

  lemma {:induction false} DecodedFirst(pieces: seq<string>, routes: seq<CompactPortRoute>, more: seq<CompactPortRoute>,
                                        out: seq<CompactPortRoute>)
    requires pieces != [] && |more| == |routes| + 1 && routes <= more <= out
    requires pieces[0] == RouteText(more[|routes|]) && RouteTexts(out)[|more|..] == pieces[1..]
    ensures routes <= out && RouteTexts(out)[|routes|..] == pieces
  {
    RouteTextsFrom(out, |routes|);
  }

  /** Accepted pieces are the texts of the routes they give. */
  lemma {:induction false} DecodedPieces(pieces: seq<string>, routes: seq<CompactPortRoute>)
    requires ValidRoutes(routes) && DecodePieces(pieces, routes).Some?
    ensures var out := DecodePieces(pieces, routes).value;
            ValidRoutes(out) && |out| == |routes| + |pieces| && routes <= out && RouteTexts(out)[|routes|..] == pieces
    decreases |pieces|
  {
    if pieces != [] {
      NextRouteMeans(routes, pieces[0]);
      var more := NextRoute(routes, pieces[0]).value;
      ValidExtends(routes, more);
      DecodedPieces(pieces[1..], more);
      DecodedFirst(pieces, routes, more, DecodePieces(pieces, routes).value);
    }
  }

  lemma {:induction false} EnvelopeOf(text: string, head: string)
    requires |head| == 3 && |text| > 3 && text[..3] == head && 3 < Find(text, '|') < |text|
    ensures var split := Find(text, '|'); text == Envelope(head, text[3..split], text[split + 1..])
  {
    var split := Find(text, '|');
    assert text == text[..3] + text[3..split] + [text[split]] + text[split + 1..];
  }

  lemma {:induction false} PiecesCanonical(middle: string)
    requires DecodePieces(Split(middle, ';'), []).Some?
    ensures var routes := DecodePieces(Split(middle, ';'), []).value;
            routes != [] && ValidRoutes(routes) && Join(RouteTexts(routes), ';') == middle
  {
    var pieces := Split(middle, ';');
    DecodedPieces(pieces, []);
    JoinSplit(middle, ';');
    var routes := DecodePieces(pieces, []).value;
    assert RouteTexts(routes)[0..] == RouteTexts(routes);
  }

  /** An accepted text decodes to valid routes and is their only encoding. */
  lemma {:induction false} RoutesCanonical(text: string)
    requires Routes(text).Some?
    ensures var routes := Routes(text).value; routes != [] && ValidRoutes(routes) && text == RoutesEnvelope(routes)
  {
    AcceptedRoutes(text);
    PiecesCanonical(text[3..|text| - 1]);
  }

  lemma {:induction false} AcceptedRoutes(text: string)
    requires Routes(text).Some?
    ensures |text| > 4 && text == Envelope("R1;", text[3..|text| - 1], "")
    ensures Routes(text) == DecodePieces(Split(text[3..|text| - 1], ';'), [])
  {
    EnvelopeOf(text, "R1;");
  }

  /** `n` are the numbers of the first i fields, and `piece` is what follows them. */
  ghost predicate QuadRead(text: string, piece: string, n: seq<nat>, i: nat) {
    var fields := Split(text, ':');
    && |n| == i <= |fields| && ParseFields(fields[..i]) == Some(n)
    && if i < 4 then i < |fields| && Split(piece, ':') == fields[i..] else |fields| == 4
  }

  /** The next field ends at a colon, the fourth at the end of the piece. */
  predicate FieldEnds(piece: string, i: nat) {
    if i < 3 then Find(piece, ':') < |piece| else Find(piece, ':') == |piece|
  }

  lemma {:induction false} NextField(text: string, piece: string, n: seq<nat>, i: nat)
    requires QuadRead(text, piece, n, i) && i < 4
    ensures var fields, colon := Split(text, ':'), Find(piece, ':');
            && i < |fields| && fields[i] == piece[..colon] && (|fields| == i + 1 <==> colon == |piece|)
            && (colon < |piece| ==> Split(piece[colon + 1..], ':') == fields[i + 1..])
  {
    var fields, colon := Split(text, ':'), Find(piece, ':');
    assert fields[i] == fields[i..][0];
    if colon == |piece| {
      assert piece[..colon] == piece;
    } else {
      assert fields[i + 1..] == fields[i..][1..];
    }
  }

  lemma {:induction false} QuadRejected(text: string, piece: string, n: seq<nat>, i: nat)
    requires QuadRead(text, piece, n, i) && i < 4
    requires !FieldEnds(piece, i) || ParseUint32(piece[..Find(piece, ':')]).None?
    ensures ParseQuad(text) == None
  {
    NextField(text, piece, n, i);
    if FieldEnds(piece, i) {
      ParseFieldsPrefix(Split(text, ':'), i);
    }
  }

  lemma {:induction false} QuadStep(text: string, piece: string, n: seq<nat>, i: nat, v: nat)
    requires QuadRead(text, piece, n, i) && i < 4 && FieldEnds(piece, i)
    requires ParseUint32(piece[..Find(piece, ':')]) == Some(v)
    ensures QuadRead(text, if i < 3 then piece[Find(piece, ':') + 1..] else piece, n + [v], i + 1)
  {
    var fields := Split(text, ':');
    NextField(text, piece, n, i);
    assert fields[..i + 1][..i] == fields[..i];
  }

  /** Reads four numbers, cutting the piece at each colon. */
  method ReadQuad(text: string) returns (r: Option<seq<nat>>)
    ensures r == ParseQuad(text)
  {
    var piece := text;
    var n: seq<nat> := [];
    assert Split(text, ':')[0..] == Split(text, ':');
    for i := 0 to 4
      invariant QuadRead(text, piece, n, i)
    {
      var colon := Find(piece, ':');
      var v := ParseUint32(piece[..colon]);
      if (i < 3 && colon == |piece|) || (i == 3 && colon != |piece|) || v.None? {
        QuadRejected(text, piece, n, i);
        return None;
      }
      QuadStep(text, piece, n, i, v.value);
      n := n + [v.value];
      if i < 3 {
        piece := piece[colon + 1..];
      }
    }
    assert Split(text, ':')[..4] == Split(text, ':');
    r := Some(n);
  }

  /** The first piece decides, then the rest follows. */
  lemma {:induction false} DecodeFirstPiece(text: string, routes: seq<CompactPortRoute>)
    ensures var end := Find(text, ';');
            DecodePieces(Split(text, ';'), routes) ==
              match NextRoute(routes, text[..end])
              case None => None
              case Some(more) => if end == |text| then Some(more) else DecodePieces(Split(text[end + 1..], ';'), more)
  {
    var end := Find(text, ';');
    if end == |text| {
      assert text[..end] == text;
    } else {
      assert ([text[..end]] + Split(text[end + 1..], ';'))[1..] == Split(text[end + 1..], ';');
    }
  }

  /** Decodes an `R1` text piece by piece. */
  method DecodeCompactPortBitmap(text: string) returns (r: Option<seq<CompactPortRoute>>)
    ensures r == Routes(text)
  {
    var split := Find(text, '|');
    if |text| < 3 || text[..3] != "R1;" || split + 1 != |text| || split <= 3 {
      return None;
    }
    var rest := text[3..split];
    var routes: seq<CompactPortRoute> := [];
    while rest != ""
      invariant rest != "" && Routes(text) == DecodePieces(Split(rest, ';'), routes)
      decreases |rest|
    {
      var end := Find(rest, ';');
      var piece := rest[..end];
      DecodeFirstPiece(rest, routes);
      var n := ReadQuad(piece);
      if n.None? || |n.value| != 4 || !Follows(routes, RouteOf(n.value)) {
        return None;
      }
      routes := routes + [RouteOf(n.value)];
      if end == |rest| {
        break;
      }
      rest := rest[end + 1..];
      if rest == "" {
        EmptyPiece(routes);
        return None;
      }
    }
    r := Some(routes);
  }

  lemma {:induction false} EmptyPiece(routes: seq<CompactPortRoute>)
    ensures DecodePieces(Split("", ';'), routes).None?
  {
    assert Split("", ';') == [""] && Split("", ':') == [""];
  }

  /** The decoder takes the target id that stands for no path; the encoder refuses it. */
  lemma {:induction false} SentinelDecodesOnly(high: nat, target: nat)
    requires high <= INT32_MAX && target + high <= INT32_MAX
    ensures var routes := [CompactPortRoute(0, high, target, UINT32_MAX, "", UINT32_MAX)];
            Routes(RoutesEnvelope(routes)) == Some(routes) && !Bound(routes)
  {
    RoutesRoundTrip([CompactPortRoute(0, high, target, UINT32_MAX, "", UINT32_MAX)]);
  }

  // ---------------------------------------------------------------------------
  // Decoding coverage
  // ---------------------------------------------------------------------------

  function LastHigh(coverage: seq<Range>): int {
    if coverage == [] then -2 else coverage[|coverage| - 1].1
  }

  /** The range may follow: not negative, not empty, and not touching the one before. */
  predicate Continues(coverage: seq<Range>, r: Range) {
    0 <= r.0 <= r.1 <= INT32_MAX && r.0 > LastHigh(coverage) + 1 && |coverage| < MaxPieces
  }

  /** Ascending ranges from bit 0 up with a gap between neighbours. */
  ghost predicate ValidCoverage(coverage: seq<Range>) {
    forall k :: 0 <= k < |coverage| ==> Continues(coverage[..k], coverage[k])
  }

  /** That is: at most 256 ranges of 32-bit positions from bit 0 up, with an uncovered bit between neighbours. */
  lemma {:induction false} ValidCoverageMeans(coverage: seq<Range>)
    ensures ValidCoverage(coverage) <==>
              && |coverage| <= 256
              && (forall k :: 0 <= k < |coverage| ==> 0 <= coverage[k].0 <= coverage[k].1 <= 0x7FFF_FFFF)
              && (forall j, k :: 0 <= j && k == j + 1 && k < |coverage| ==> coverage[j].1 + 1 < coverage[k].0)
  {
    assert INT32_MAX == 0x7FFF_FFFF;
    if ValidCoverage(coverage) {
      assert |coverage| > 0 ==> Continues(coverage[..|coverage| - 1], coverage[|coverage| - 1]);
      forall j, k | 0 <= j && k == j + 1 && k < |coverage|
        ensures coverage[j].1 + 1 < coverage[k].0
      {
        assert Continues(coverage[..k], coverage[k]) && coverage[..k][k - 1] == coverage[j];
      }
    } else {
      var k :| 0 <= k < |coverage| && !Continues(coverage[..k], coverage[k]);
      assert k > 0 ==> coverage[..k][k - 1] == coverage[k - 1];
    }
  }

  function ParseRange(piece: string): Option<Range> {
    var colon := Find(piece, ':');
    if colon == |piece| then None
    else
      match (ParseInt32(piece[..colon]), ParseInt32(piece[colon + 1..]))
      case (Some(lo), Some(hi)) => Some((lo, hi))
      case _ => None
  }

  function NextRange(coverage: seq<Range>, piece: string): Option<seq<Range>> {
    match ParseRange(piece)
    case None => None
    case Some(r) => if Continues(coverage, r) then Some(coverage + [r]) else None
  }

  function DecodeRanges(pieces: seq<string>, coverage: seq<Range>): Option<seq<Range>> {
    if pieces == [] then Some(coverage)
    else
      match NextRange(coverage, pieces[0])
      case None => None
      case Some(more) => DecodeRanges(pieces[1..], more)
  }

  /** Brackets match, and nothing stands outside them. */
  predicate Balanced(payload: string, depth: nat) {
    if payload == "" then depth == 0
    else if payload[0] == '[' then Balanced(payload[1..], depth + 1)
    else if payload[0] == ']' then depth > 0 && Balanced(payload[1..], depth - 1)
    else depth > 0 && Balanced(payload[1..], depth)
  }

  /** How many brackets are open after the first n characters. */
  function OpenAfter(payload: string, n: nat): int
    requires n <= |payload|
  {
    if n == 0 then 0
    else OpenAfter(payload, n - 1) + if payload[n - 1] == '[' then 1 else if payload[n - 1] == ']' then -1 else 0
  }

  /** The n-th character does not close an unopened bracket, and stands inside one if it is no bracket. */
  predicate InPlace(payload: string, n: nat)
    requires n < |payload|
  {
    OpenAfter(payload, n + 1) >= 0 && (payload[n] != '[' && payload[n] != ']' ==> OpenAfter(payload, n) > 0)
  }

  /** All characters from position i on are in place, and all brackets are closed at the end. */
  ghost predicate ClosedFrom(payload: string, i: nat)
    requires i <= |payload|
  {
    OpenAfter(payload, |payload|) == 0 && forall n: nat :: i <= n < |payload| ==> InPlace(payload, n)
  }

  lemma {:induction false} BalancedFrom(payload: string, i: nat)
    requires i <= |payload| && OpenAfter(payload, i) >= 0
    ensures Balanced(payload[i..], OpenAfter(payload, i)) <==> ClosedFrom(payload, i)
    decreases |payload| - i
  {
    if i < |payload| {
      assert payload[i..][0] == payload[i] && payload[i..][1..] == payload[i + 1..];
      if OpenAfter(payload, i + 1) >= 0 {
        BalancedFrom(payload, i + 1);
        assert ClosedFrom(payload, i) <==> ClosedFrom(payload, i + 1) && InPlace(payload, i);
      } else {
        assert !InPlace(payload, i);
      }
    }
  }

  /**
   A text is balanced exactly if it closes as many brackets as it opens, no prefix closes more
   than it opens, and every other character stands inside brackets.
   */
  lemma {:induction false} BalancedCounts(payload: string)
    ensures Balanced(payload, 0) <==>
              && OpenAfter(payload, |payload|) == 0
              && (forall n: nat :: n <= |payload| ==> OpenAfter(payload, n) >= 0)
              && (forall n: nat :: n < |payload| && payload[n] != '[' && payload[n] != ']' ==>
                  OpenAfter(payload, n) > 0)
  {
    assert payload[0..] == payload;
    BalancedFrom(payload, 0);
    if ClosedFrom(payload, 0) {
      forall n: nat | n <= |payload|
        ensures OpenAfter(payload, n) >= 0
      {
        assert n > 0 ==> InPlace(payload, n - 1);
      }
      forall n: nat | n < |payload| && payload[n] != '[' && payload[n] != ']'
        ensures OpenAfter(payload, n) > 0
      {
        assert InPlace(payload, n);
      }
    } else if OpenAfter(payload, |payload|) == 0 {
      var n: nat :| n < |payload| && !InPlace(payload, n);
      assert OpenAfter(payload, n + 1) < 0 || (payload[n] != '[' && payload[n] != ']' && OpenAfter(payload, n) <= 0);
    }
  }

  /** What a `Q1` text means: coverage and native bit map. */
  function CoverageOf(text: string): Option<(seq<Range>, string)> {
    var split := Find(text, '|');
    if |text| < 3 || text[..3] != "Q1;" || split == |text| || split <= 3 then None
    else
      match DecodeRanges(Split(text[3..split], ';'), [])
      case None => None
      case Some(coverage) =>
        if Balanced(text[split + 1..], 0) then Some((coverage, text[split + 1..])) else None
  }

  lemma {:induction false} RangeTextParses(r: Range)
    requires IsInt32(r.0) && IsInt32(r.1)
    ensures ParseRange(RangeText(r)) == Some(r)
  {
    var a, b := IntText(r.0), IntText(r.1);
    var text := a + [':'] + b;
    IntTextChars(r.0, ':');
    FindSplits(a, ':', b);
    assert text[..|a|] == a && text[|a| + 1..] == b;
    ParseIntText(r.0);
    ParseIntText(r.1);
  }

  lemma {:induction false} RangeTextLacks(r: Range, c: char)
    requires !IsDigit(c) && c != '-' && c != ':'
    ensures Lacks(RangeText(r), c) && RangeText(r) != ""
  {
    IntTextChars(r.0, c);
    IntTextChars(r.1, c);
  }

  lemma {:induction false} NextRangeOfText(coverage: seq<Range>, r: Range)
    requires Continues(coverage, r)
    ensures NextRange(coverage, RangeText(r)) == Some(coverage + [r])
  {
    RangeTextParses(r);
  }

  lemma {:induction false} DecodeRangeTexts(coverage: seq<Range>, k: nat)
    requires ValidCoverage(coverage) && k <= |coverage|
    ensures DecodeRanges(RangeTexts(coverage)[k..], coverage[..k]) == Some(coverage)
    decreases |coverage| - k
  {
    if k < |coverage| {
      NextRangeOfText(coverage[..k], coverage[k]);
      assert coverage[..k + 1] == coverage[..k] + [coverage[k]];
      DecodeRangeTexts(coverage, k + 1);
      assert RangeTexts(coverage)[k..][1..] == RangeTexts(coverage)[k + 1..];
    } else {
      assert coverage[..k] == coverage;
    }
  }

  /** An encoded envelope decodes to the same coverage and bit map exactly if the bit map is balanced. */
  lemma {:induction false} CoverageRoundTrip(coverage: seq<Range>, native: string)
    requires ValidCoverage(coverage) && coverage != []
    ensures CoverageOf(CoverageEnvelope(coverage, native)) ==
            if Balanced(native, 0) then Some((coverage, native)) else None
  {
    var texts := RangeTexts(coverage);
    forall i | 0 <= i < |texts|
      ensures Lacks(texts[i], ';') && Lacks(texts[i], '|') && texts[i] != ""
    {
      RangeTextLacks(coverage[i], ';');
      RangeTextLacks(coverage[i], '|');
    }
    SplitJoin(texts, ';');
    JoinLacks(texts, ';', '|');
    JoinLength(texts, ';');
    EnvelopeSplits("Q1;", Join(texts, ';'), native);
    DecodeRangeTexts(coverage, 0);
    assert texts[0..] == texts;
  }

  lemma {:induction false} DecodedRanges(pieces: seq<string>, coverage: seq<Range>)
    requires ValidCoverage(coverage) && DecodeRanges(pieces, coverage).Some?
    ensures var out := DecodeRanges(pieces, coverage).value; ValidCoverage(out) && |out| == |coverage| + |pieces|
    decreases |pieces|
  {
    if pieces != [] {
      var more := NextRange(coverage, pieces[0]).value;
      forall k | 0 <= k < |more|
        ensures Continues(more[..k], more[k])
      {
        assert more[..k] == coverage[..k];
      }
      DecodedRanges(pieces[1..], more);
    }
  }

  /** Whatever is accepted is canonical coverage with a balanced bit map, and decodes from its own encoding. */
  lemma {:induction false} AcceptedCoverage(text: string)
    requires CoverageOf(text).Some?
    ensures var (coverage, native) := CoverageOf(text).value;
            && coverage != [] && ValidCoverage(coverage) && Balanced(native, 0)
            && CoverageOf(CoverageEnvelope(coverage, native)) == CoverageOf(text)
  {
    var (coverage, native) := CoverageOf(text).value;
    DecodedRanges(Split(text[3..Find(text, '|')], ';'), []);
    CoverageRoundTrip(coverage, native);
  }

  /** Counts brackets. */
  method CheckBrackets(payload: string) returns (ok: bool)
    ensures ok == Balanced(payload, 0)
  {
    var depth: int := 0;
    assert payload[0..] == payload;
    for i := 0 to |payload|
      invariant depth >= 0 && Balanced(payload, 0) == Balanced(payload[i..], depth)
    {
      assert payload[i..][1..] == payload[i + 1..];
      if payload[i] == '[' {
        depth := depth + 1;
      } else if payload[i] == ']' {
        depth := depth - 1;
        if depth < 0 {
          return false;
        }
      } else if depth == 0 {
        return false;
      }
    }
    ok := depth == 0;
  }

  /** Decodes a `Q1` text piece by piece. */
  method DecodePortQueryBitmap(text: string) returns (r: Option<(seq<Range>, string)>)
    ensures r == CoverageOf(text)
  {
    var split := Find(text, '|');
    if |text| < 3 || text[..3] != "Q1;" || split == |text| || split <= 3 {
      return None;
    }
    var coverage := DecodeAllRanges(text[3..split]);
    if coverage.None? {
      return None;
    }
    var ok := CheckBrackets(text[split + 1..]);
    r := if ok then Some((coverage.value, text[split + 1..])) else None;
  }

  /** The first piece decides, then the rest follows. */
  lemma {:induction false} DecodeRangesFirst(text: string, coverage: seq<Range>)
    ensures var end := Find(text, ';');
            DecodeRanges(Split(text, ';'), coverage) ==
              match NextRange(coverage, text[..end])
              case None => None
              case Some(more) => if end == |text| then Some(more) else DecodeRanges(Split(text[end + 1..], ';'), more)
  {
    var end := Find(text, ';');
    if end == |text| {
      assert text[..end] == text;
    } else {
      assert ([text[..end]] + Split(text[end + 1..], ';'))[1..] == Split(text[end + 1..], ';');
    }
  }

  method DecodeAllRanges(pieces: string) returns (r: Option<seq<Range>>)
    requires pieces != ""
    ensures r == DecodeRanges(Split(pieces, ';'), [])
  {
    var rest := pieces;
    var coverage: seq<Range> := [];
    while rest != ""
      invariant rest != "" && DecodeRanges(Split(pieces, ';'), []) == DecodeRanges(Split(rest, ';'), coverage)
      decreases |rest|
    {
      var end := Find(rest, ';');
      var piece := rest[..end];
      DecodeRangesFirst(rest, coverage);
      var range := ParseRange(piece);
      if range.None? || !Continues(coverage, range.value) {
        return None;
      }
      coverage := coverage + [range.value];
      if end == |rest| {
        break;
      }
      rest := rest[end + 1..];
      if rest == "" {
        EmptyRange(coverage);
        return None;
      }
    }
    r := Some(coverage);
  }

  lemma {:induction false} EmptyRange(coverage: seq<Range>)
    ensures DecodeRanges(Split("", ';'), coverage).None?
  {
    assert Split("", ';') == [""];
  }
}
