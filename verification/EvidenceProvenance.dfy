/**
 The state of an evidence row's declared provenance and of a readiness snapshot, as read without a schema.
 An execution that `isModelExecutionProvenance` accepts is `Recognised`; a null field counts as missing.
 */
module EvidenceProvenance {
  import opened Wrappers

  datatype Execution = Execution(
    schemaVersion: int,
    taskSlot: string,
    contractVersion: string,
    model: string,
    provider: string,
    usedFallback: bool,
    attemptKind: string,
    configDigest: string,
    fingerprint: string)

  datatype RawExecution = Recognised(execution: Execution) | Unrecognised

  datatype RawDate = ValidDate(at: int) | NotADate

  datatype RawProvenance =
    | NotARecord
    | Declared(
        schemaVersion: Option<int>,
        status: string,
        scoring: Option<RawExecution>,
        attribution: Option<RawExecution>,
        quarantineReason: Option<string>,
        quarantinedAt: Option<RawDate>)

  datatype Evidence = Evidence(scoringEpoch: Option<string>, provenance: Option<RawProvenance>)

  datatype EvidenceState = Attested | Quarantined | Legacy | Malformed

  datatype Kind = Scoring | Attribution

  predicate KnownScoring(e: Execution) {
    || (e.taskSlot == "interview.evaluate-answer" && e.contractVersion == "answer-evaluation.v1")
    || (e.taskSlot == "interview.evaluate-code" && e.contractVersion == "code-evaluation.v1")
    || (e.taskSlot == "interview.evaluate-design" && e.contractVersion == "design-evaluation.v1")
  }

  predicate KnownAttribution(e: Execution) {
    e.taskSlot == "jobs.evidence-attribution" && e.contractVersion == "evidence-attribution.v1"
  }

  predicate Known(e: Execution, kind: Kind) { if kind == Scoring then KnownScoring(e) else KnownAttribution(e) }

  predicate WellAttested(row: Evidence, p: RawProvenance)
    requires p.Declared?
  {
    && p.scoring.Some? && p.scoring.value.Recognised?
    && p.attribution.Some? && p.attribution.value.Recognised?
    && KnownScoring(p.scoring.value.execution) && KnownAttribution(p.attribution.value.execution)
    && row.scoringEpoch == Some(p.scoring.value.execution.fingerprint)
    && p.quarantineReason.None? && p.quarantinedAt.None?
  }

  predicate WellQuarantined(p: RawProvenance)
    requires p.Declared?
  {
    && p.quarantineReason == Some("pre-provenance-contract")
    && p.quarantinedAt.Some? && p.quarantinedAt.value.ValidDate?
    && p.scoring.None? && p.attribution.None?
  }

  function EvidenceStateOf(row: Evidence): EvidenceState {
    match row.provenance
    case None => Legacy
    case Some(NotARecord) => Malformed
    case Some(p) =>
      if p.schemaVersion != Some(1) then Malformed
      else if p.status == "attested" then if WellAttested(row, p) then Attested else Malformed
      else if p.status == "legacy-unverifiable" then if WellQuarantined(p) then Quarantined else Malformed
      else Malformed
  }

  // ---- Readiness snapshots ----

  /** `scoring` and `attribution` are `None` when they are not arrays. */
  datatype RawClaims =
    | ClaimsNotARecord
    | Claims(schemaVersion: Option<int>, scoring: Option<seq<RawExecution>>, attribution: Option<seq<RawExecution>>)

  datatype RawReadiness =
    | ReadinessNotARecord
    | Readiness(
        provenance: Option<RawClaims>,
        band: string,
        practiced: bool,
        hasSessions: bool,
        handoffVersion: Option<int>,
        scoringEpoch: Option<string>)

  datatype Current = Current(epoch: string, scoring: seq<Execution>, attribution: seq<Execution>)

  datatype ReadinessState = UpToDate | LegacyReadiness | Stale | MalformedReadiness

  predicate Accepted(item: RawExecution, kind: Kind) {
    item.Recognised? && !item.execution.usedFallback && Known(item.execution, kind)
  }

  /** Every item is acceptable, and no fingerprint comes twice. */
  predicate AcceptedList(items: seq<RawExecution>, kind: Kind) {
    && (forall i :: 0 <= i < |items| ==> Accepted(items[i], kind))
    && (forall i, j :: 0 <= i < j < |items| && items[i].Recognised? && items[j].Recognised? ==>
          items[i].execution.fingerprint != items[j].execution.fingerprint)
  }

  function Executions(items: seq<RawExecution>): (r: seq<Execution>)
    requires forall i :: 0 <= i < |items| ==> items[i].Recognised?
    ensures |r| == |items| && forall i :: 0 <= i < |items| ==> r[i] == items[i].execution
  {
    if items == [] then [] else [items[0].execution] + Executions(items[1..])
  }

  function UniqueExecutions(value: Option<seq<RawExecution>>, kind: Kind): Option<seq<Execution>> {
    if value.Some? && AcceptedList(value.value, kind) then Some(Executions(value.value)) else None
  }

  /** uniqueExecutions: one pass with a set of the fingerprints seen. */
  method CollectUniqueExecutions(value: Option<seq<RawExecution>>, kind: Kind) returns (r: Option<seq<Execution>>)
    ensures r == UniqueExecutions(value, kind)
  {
    if value.None? { return None; }
    var items := value.value;
    var fingerprints: set<string>, executions: seq<Execution>, i := {}, [], 0;
    while i < |items|
      invariant 0 <= i <= |items| == |items| && |executions| == i
      invariant forall k :: 0 <= k < i ==> Accepted(items[k], kind) && executions[k] == items[k].execution
      invariant forall k, l :: 0 <= k < l < i ==> items[k].execution.fingerprint != items[l].execution.fingerprint
      invariant forall f :: f in fingerprints <==> exists k :: 0 <= k < i && items[k].execution.fingerprint == f
    {
      var item := items[i];
      if !Accepted(item, kind) { return None; }
      if item.execution.fingerprint in fingerprints { return None; }
      fingerprints := fingerprints + {item.execution.fingerprint};
      executions := executions + [item.execution];
      i := i + 1;
    }
    assert executions == Executions(items);
    return Some(executions);
  }

  /** `new Map(current.map(e => [e.fingerprint, e])).get(fingerprint)`. */
  function LastByFingerprint(executions: seq<Execution>, fingerprint: string): Option<Execution> {
    if executions == [] then None
    else if executions[|executions| - 1].fingerprint == fingerprint then Some(executions[|executions| - 1])
    else LastByFingerprint(executions[..|executions| - 1], fingerprint)
  }

  predicate AllCurrent(executions: seq<Execution>, current: seq<Execution>) {
    forall e :: e in executions ==> LastByFingerprint(current, e.fingerprint) == Some(e)
  }

  predicate HexDigit(c: char) { 'a' <= c <= 'f' || '0' <= c <= '9' }

  predicate Hex64(s: string) { |s| == 64 && forall i :: 0 <= i < |s| ==> HexDigit(s[i]) }

  predicate KnownBand(band: string) { band in ["none", "building", "practiced", "strong-evidence"] }

  predicate HasClaims(s: RawReadiness)
    requires s.Readiness?
  {
    s.band != "none" || s.practiced || s.hasSessions
  }

  /** The executions a well-formed snapshot rests on. */
  function Snapshot(s: RawReadiness): Option<(seq<Execution>, seq<Execution>)>
    requires s.Readiness? && s.provenance.Some?
  {
    match s.provenance.value
    case ClaimsNotARecord => None
    case Claims(version, scoring, attribution) =>
      if version != Some(1) then None
      else
        match (UniqueExecutions(scoring, Scoring), UniqueExecutions(attribution, Attribution))
        case (Some(a), Some(b)) =>
          if HasClaims(s) && (a == [] || b == []) then None
          else if s.handoffVersion != Some(1) || s.scoringEpoch.None? || !Hex64(s.scoringEpoch.value) ||
            !KnownBand(s.band) then None
          else Some((a, b))
        case _ => None
  }

  function ReadinessStateOf(s: RawReadiness, current: Current): ReadinessState {
    if s.ReadinessNotARecord? then MalformedReadiness
    else if s.provenance.None? then LegacyReadiness
    else match Snapshot(s)
      case None => MalformedReadiness
      case Some((scoring, attribution)) =>
        if s.scoringEpoch != Some(current.epoch)
           || !AllCurrent(scoring, current.scoring) || !AllCurrent(attribution, current.attribution)
        then Stale
        else UpToDate
  }

  /** A snapshot that counts as current rests on current executions only, each named once. */
  lemma UpToDateRestsOnCurrent(s: RawReadiness, current: Current)
    requires ReadinessStateOf(s, current) == UpToDate
    ensures s.Readiness? && s.provenance.Some? && Snapshot(s).Some? && s.scoringEpoch == Some(current.epoch)
    ensures forall e :: e in Snapshot(s).value.0 ==> e in current.scoring && KnownScoring(e) && !e.usedFallback
    ensures forall e :: e in Snapshot(s).value.1 ==> e in current.attribution && KnownAttribution(e) && !e.usedFallback
  {
    var claims, parts := s.provenance.value, Snapshot(s).value;
    forall e | e in parts.0 ensures e in current.scoring && KnownScoring(e) && !e.usedFallback {
      LastIsMember(current.scoring, e.fingerprint);
      var i :| 0 <= i < |parts.0| && parts.0[i] == e;
      assert Accepted(claims.scoring.value[i], Scoring);
    }
    forall e | e in parts.1 ensures e in current.attribution && KnownAttribution(e) && !e.usedFallback {
      LastIsMember(current.attribution, e.fingerprint);
      var i :| 0 <= i < |parts.1| && parts.1[i] == e;
      assert Accepted(claims.attribution.value[i], Attribution);
    }
  }

  // ---- The states in terms of what is stored ----

  /** A current execution, and the last one of its fingerprint. */
  predicate LatestAt(e: Execution, current: seq<Execution>, k: nat) {
    k < |current| && current[k] == e && forall j :: k < j < |current| ==> current[j].fingerprint != e.fingerprint
  }

  ghost predicate IsLatest(e: Execution, current: seq<Execution>) { exists k: nat :: LatestAt(e, current, k) }

  lemma {:induction false} LastIsLatest(current: seq<Execution>, e: Execution)
    ensures LastByFingerprint(current, e.fingerprint) == Some(e) <==> IsLatest(e, current)
  {
    if current != [] {
      var n := |current| - 1;
      LastIsLatest(current[..n], e);
      if current[n] == e {
        assert LatestAt(e, current, n);
      } else if current[n].fingerprint != e.fingerprint {
        if IsLatest(e, current[..n]) {
          var k: nat :| LatestAt(e, current[..n], k);
          assert LatestAt(e, current, k);
        }
        if IsLatest(e, current) {
          var k: nat :| LatestAt(e, current, k);
          assert LatestAt(e, current[..n], k);
        }
      }
    }
  }

  /** If no fingerprint is repeated, to be the last of its fingerprint is to be among the current ones. */
  lemma LatestIsMember(e: Execution, current: seq<Execution>)
    requires forall i, j :: 0 <= i < j < |current| ==> current[i].fingerprint != current[j].fingerprint
    ensures IsLatest(e, current) <==> e in current
  {
    if e in current {
      var k :| 0 <= k < |current| && current[k] == e;
      assert LatestAt(e, current, k);
    }
  }

  /** An execution of one of the contracts of its kind, made without a fallback. */
  predicate Reliable(e: Execution, kind: Kind) {
    && !e.usedFallback
    && (e.taskSlot, e.contractVersion) in
         match kind
         case Scoring =>
           {("interview.evaluate-answer", "answer-evaluation.v1"), ("interview.evaluate-code", "code-evaluation.v1"),
            ("interview.evaluate-design", "design-evaluation.v1")}
         case Attribution => {("jobs.evidence-attribution", "evidence-attribution.v1")}
  }

  /** A stored list of reliable executions, each fingerprint once. */
  ghost predicate ReliableList(items: seq<RawExecution>, kind: Kind) {
    && (forall i :: 0 <= i < |items| ==> items[i].Recognised? && Reliable(items[i].execution, kind))
    && (forall i, j :: 0 <= i < j < |items| && items[i].Recognised? && items[j].Recognised? ==>
          items[i].execution.fingerprint != items[j].execution.fingerprint)
  }

  /** A snapshot of the present version whose claims, if it makes any, rest on some execution of either kind. */
  ghost predicate WellFormedSnapshot(s: RawReadiness) {
    && s.Readiness? && s.provenance.Some? && s.provenance.value.Claims?
    && var claims := s.provenance.value;
    && claims.schemaVersion == Some(1) && claims.scoring.Some? && claims.attribution.Some?
    && ReliableList(claims.scoring.value, Scoring) && ReliableList(claims.attribution.value, Attribution)
    && (s.band != "none" || s.practiced || s.hasSessions ==>
          claims.scoring.value != [] && claims.attribution.value != [])
    && s.handoffVersion == Some(1) && s.band in {"none", "building", "practiced", "strong-evidence"}
    && s.scoringEpoch.Some? && |s.scoringEpoch.value| == 64
    && forall i :: 0 <= i < 64 ==> s.scoringEpoch.value[i] in "0123456789abcdef"
  }

  /** Each execution it names is a current one, under the current epoch. */
  ghost predicate NamesCurrent(s: RawReadiness, current: Current)
    requires WellFormedSnapshot(s)
  {
    && s.scoringEpoch == Some(current.epoch)
    && (forall i :: 0 <= i < |s.provenance.value.scoring.value| ==>
          IsLatest(s.provenance.value.scoring.value[i].execution, current.scoring))
    && (forall i :: 0 <= i < |s.provenance.value.attribution.value| ==>
          IsLatest(s.provenance.value.attribution.value[i].execution, current.attribution))
  }

  lemma ReliableIffKnown(e: Execution, kind: Kind)
    ensures Reliable(e, kind) <==> !e.usedFallback && Known(e, kind)
  {}

  lemma ReliableIffAccepted(items: seq<RawExecution>, kind: Kind)
    ensures ReliableList(items, kind) <==> AcceptedList(items, kind)
  {
    forall i | 0 <= i < |items| && items[i].Recognised?
      ensures Reliable(items[i].execution, kind) <==>
                !items[i].execution.usedFallback && Known(items[i].execution, kind)
    {
      ReliableIffKnown(items[i].execution, kind);
    }
  }

  lemma HexIsOneOf(c: char)
    ensures HexDigit(c) <==> c in "0123456789abcdef"
  {
    assert c in "0123456789abcdef" <==> exists i :: 0 <= i < 16 && "0123456789abcdef"[i] == c;
    if '0' <= c <= '9' { assert "0123456789abcdef"[c as int - '0' as int] == c; }
    if 'a' <= c <= 'f' { assert "0123456789abcdef"[10 + c as int - 'a' as int] == c; }
  }

  lemma SnapshotIff(s: RawReadiness)
    requires s.Readiness? && s.provenance.Some?
    ensures Snapshot(s).Some? <==> WellFormedSnapshot(s)
    ensures Snapshot(s).Some? ==>
              && Snapshot(s).value.0 == Executions(s.provenance.value.scoring.value)
              && Snapshot(s).value.1 == Executions(s.provenance.value.attribution.value)
  {
    if s.provenance.value.Claims? && s.provenance.value.scoring.Some? {
      ReliableIffAccepted(s.provenance.value.scoring.value, Scoring);
    }
    if s.provenance.value.Claims? && s.provenance.value.attribution.Some? {
      ReliableIffAccepted(s.provenance.value.attribution.value, Attribution);
    }
    forall c ensures HexDigit(c) <==> c in "0123456789abcdef" { HexIsOneOf(c); }
  }

  lemma CurrentIff(items: seq<RawExecution>, current: seq<Execution>)
    requires forall i :: 0 <= i < |items| ==> items[i].Recognised?
    ensures AllCurrent(Executions(items), current) <==>
              forall i :: 0 <= i < |items| ==> IsLatest(items[i].execution, current)
  {
    forall e: Execution ensures LastByFingerprint(current, e.fingerprint) == Some(e) <==> IsLatest(e, current) {
      LastIsLatest(current, e);
    }
    if AllCurrent(Executions(items), current) {
      forall i | 0 <= i < |items| ensures IsLatest(items[i].execution, current) {
        assert Executions(items)[i] in Executions(items);
      }
    }
  }

  /** Every state of a snapshot in terms of what is stored and of the current executions. */
  lemma ReadinessStateIff(s: RawReadiness, current: Current)
    ensures ReadinessStateOf(s, current) == LegacyReadiness <==> s.Readiness? && s.provenance.None?
    ensures ReadinessStateOf(s, current) == MalformedReadiness <==>
              !(s.Readiness? && s.provenance.None?) && !WellFormedSnapshot(s)
    ensures ReadinessStateOf(s, current) == Stale <==> WellFormedSnapshot(s) && !NamesCurrent(s, current)
    ensures ReadinessStateOf(s, current) == UpToDate <==> WellFormedSnapshot(s) && NamesCurrent(s, current)
  {
    if s.Readiness? && s.provenance.Some? {
      SnapshotIff(s);
      if WellFormedSnapshot(s) {
        CurrentIff(s.provenance.value.scoring.value, current.scoring);
        CurrentIff(s.provenance.value.attribution.value, current.attribution);
      }
    }
  }

  /** Every state of an evidence row: declared by two executions, one the row's epoch, or quarantined for a dated
      reason, or not declared at all. */
  lemma EvidenceStateIff(row: Evidence)
    ensures EvidenceStateOf(row) == Legacy <==> row.provenance.None?
    ensures EvidenceStateOf(row) == Attested <==>
              && row.provenance.Some? && row.provenance.value.Declared?
              && var p := row.provenance.value;
              && p.schemaVersion == Some(1) && p.status == "attested"
              && p.scoring.Some? && p.scoring.value.Recognised? && p.attribution.Some? &&
              p.attribution.value.Recognised?
              && Reliable(p.scoring.value.execution.(usedFallback := false), Scoring)
              && Reliable(p.attribution.value.execution.(usedFallback := false), Attribution)
              && row.scoringEpoch == Some(p.scoring.value.execution.fingerprint)
              && p.quarantineReason.None? && p.quarantinedAt.None?
    ensures EvidenceStateOf(row) == Quarantined <==>
              && row.provenance.Some? && row.provenance.value.Declared?
              && var p := row.provenance.value;
              && p.schemaVersion == Some(1) && p.status == "legacy-unverifiable"
              && p.quarantineReason == Some("pre-provenance-contract")
              && p.quarantinedAt.Some? && p.quarantinedAt.value.ValidDate? && p.scoring.None? && p.attribution.None?
  {
    if row.provenance.Some? && row.provenance.value.Declared? {
      var p := row.provenance.value;
      if p.scoring.Some? && p.scoring.value.Recognised? {
        ReliableIffKnown(p.scoring.value.execution.(usedFallback := false), Scoring);
      }
      if p.attribution.Some? && p.attribution.value.Recognised? {
        ReliableIffKnown(p.attribution.value.execution.(usedFallback := false), Attribution);
      }
    }
  }

  lemma {:induction false} LastIsMember(executions: seq<Execution>, fingerprint: string)
    ensures LastByFingerprint(executions, fingerprint).Some? ==>
              LastByFingerprint(executions, fingerprint).value in executions
  {
    if executions != [] { LastIsMember(executions[..|executions| - 1], fingerprint); }
  }
}
