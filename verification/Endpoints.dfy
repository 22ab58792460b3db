/** The endpoints of a signal: what drives or loads it, and on which bits. */
module Endpoints {

  datatype EndpointKind = Port | Assignment

  /** A piece of a port connection that stays compact: owner bits, and where they start in the target. */
  datatype CompactPortRoute = CompactPortRoute(
    ownerLow: int,
    ownerHigh: int,
    targetLow: int,
    targetPathId: nat,
    targetPath: string,
    targetSignalId: nat)

  datatype EndpointRecord = EndpointRecord(
    kind: EndpointKind,
    path: string,
    file: string,
    pathId: nat,
    fileId: nat,
    line: int,
    direction: string,
    assignmentText: string,
    hasAssignmentRange: bool,
    assignmentStart: nat,
    assignmentEnd: nat,
    bitMap: string,
    bitMapApproximate: bool,
    bitMapLogicalAxes: bool,
    bitMapMerged: bool,
    legacyFallbackNativeMerge: bool,
    portQueryCoverage: seq<(int, int)>,
    compactPortRoutes: seq<CompactPortRoute>,
    portMappingConstant: bool,
    portMappingUnresolved: bool,
    lhsSignalIds: seq<nat>,
    rhsSignalIds: seq<nat>,
    lhsSignals: seq<string>,
    rhsSignals: seq<string>)

  /** The fields that count for equality at compile time: all but the fallback mark. */
  function FullKey(e: EndpointRecord): EndpointRecord {
    e.(legacyFallbackNativeMerge := false)
  }

  predicate SameFields(a: EndpointRecord, b: EndpointRecord) {
    FullKey(a) == FullKey(b)
  }

  /** Where an endpoint is: its path and its place in the source. */
  predicate SamePlace(a: EndpointRecord, b: EndpointRecord) {
    && a.kind == b.kind && a.path == b.path && a.pathId == b.pathId
    && a.file == b.file && a.fileId == b.fileId && a.line == b.line && a.direction == b.direction
    && a.assignmentText == b.assignmentText && a.hasAssignmentRange == b.hasAssignmentRange
    && a.assignmentStart == b.assignmentStart && a.assignmentEnd == b.assignmentEnd
  }

  /** The signals on both sides of its assignment. */
  predicate SameReferences(a: EndpointRecord, b: EndpointRecord) {
    && a.lhsSignalIds == b.lhsSignalIds && a.rhsSignalIds == b.rhsSignalIds
    && a.lhsSignals == b.lhsSignals && a.rhsSignals == b.rhsSignals
  }

  /** Endpoints are equal exactly if they agree in every field but the fallback mark. */
  lemma {:induction false} FullKeyFields(a: EndpointRecord, b: EndpointRecord)
    ensures SameFields(a, b) <==>
              && SamePlace(a, b) && SameReferences(a, b)
              && a.bitMap == b.bitMap && a.bitMapApproximate == b.bitMapApproximate
              && a.bitMapLogicalAxes == b.bitMapLogicalAxes && a.bitMapMerged == b.bitMapMerged
              && a.portQueryCoverage == b.portQueryCoverage && a.compactPortRoutes == b.compactPortRoutes
              && a.portMappingConstant == b.portMappingConstant
              && a.portMappingUnresolved == b.portMappingUnresolved
  {
    var x, y := FullKey(a), FullKey(b);
    assert x == y <==>
             && SamePlace(x, y) && SameReferences(x, y)
             && x.bitMap == y.bitMap && x.bitMapApproximate == y.bitMapApproximate
             && x.bitMapLogicalAxes == y.bitMapLogicalAxes && x.bitMapMerged == y.bitMapMerged
             && x.portQueryCoverage == y.portQueryCoverage && x.compactPortRoutes == y.compactPortRoutes
             && x.portMappingConstant == y.portMappingConstant
             && x.portMappingUnresolved == y.portMappingUnresolved;
  }
}
