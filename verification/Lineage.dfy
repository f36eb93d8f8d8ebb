/**
 Durable source lineage of a job posting: the raw `sourceIds` and `provenance` fields as MongoDB
 may hold them, the three filters a revoke selects with, the deploy gate's restricted-posting
 filter, and the repair that makes every row well formed.
 */
module Lineage {
  import opened Wrappers
  import opened Seqs

  /** A stored BSON value, as far as the filters can tell values apart. */
  datatype Value =
    | Text(text: string)
    | List(items: seq<Value>)
    | Document(fields: map<string, Value>)
    | OtherValue(tag: int)

  /** The two lineage fields of a posting; `None` is a missing field. */
  datatype Row = Row(sourceIds: Option<Value>, provenance: Option<Value>)

  const UNKNOWN := "__legacy_unknown__"

  predicate IsLead(c: char) { 'a' <= c <= 'z' || '0' <= c <= '9' }

  predicate IsTail(c: char) { IsLead(c) || c == ':' || c == '_' || c == '-' }

  /** The pattern ^(?:__legacy_unknown__|[a-z0-9][a-z0-9:_-]{0,99})$. */
  predicate CanonicalText(s: string) {
    s == UNKNOWN || (1 <= |s| <= 100 && IsLead(s[0]) && forall i :: 1 <= i < |s| ==> IsTail(s[i]))
  }

  predicate Canonical(v: Value) { v.Text? && CanonicalText(v.text) }

  // ---- Aggregation expressions ----

  function SafeArray(field: Option<Value>): seq<Value> {
    if field.Some? && field.value.List? then field.value.items else []
  }

  function EntrySourceId(entry: Value): Option<Value> {
    if entry.Document? && "sourceId" in entry.fields then Some(entry.fields["sourceId"]) else None
  }

  predicate CanonicalEntry(entry: Value) {
    EntrySourceId(entry).Some? && Canonical(EntrySourceId(entry).value)
  }

  function ValidCurrent(row: Row): seq<Value> { Filter(Canonical, SafeArray(row.sourceIds)) }

  function ValidEntries(row: Row): seq<Value> { Filter(CanonicalEntry, SafeArray(row.provenance)) }

  /** Only ever applied to a canonical entry, whose id is present. */
  function EntryId(entry: Value): Value {
    match EntrySourceId(entry) case Some(v) => v case None => OtherValue(0)
  }

  function ValidProvenance(row: Row): seq<Value> { Map(EntryId, ValidEntries(row)) }

  predicate WellFormedIds(row: Row) {
    && row.sourceIds.Some? && row.sourceIds.value.List?
    && |SafeArray(row.sourceIds)| > 0
    && forall v :: v in SafeArray(row.sourceIds) ==> Canonical(v)
  }

  predicate InvalidCurrent(row: Row) {
    || (row.sourceIds.Some? && !row.sourceIds.value.List?)
    || exists v :: v in SafeArray(row.sourceIds) && !Canonical(v)
  }

  predicate InvalidProvenance(row: Row) {
    || (row.provenance.Some? && !row.provenance.value.List?)
    || exists e :: e in SafeArray(row.provenance) && !CanonicalEntry(e)
  }

  predicate CoverageGap(row: Row) {
    exists v :: v in ValidProvenance(row) && v !in ValidCurrent(row)
  }

  // ---- Query filters ----

  /** `{field: text}`: a scalar equal to `text`, or an array with an element equal to it. */
  predicate FieldMatches(field: Option<Value>, text: string) {
    field.Some? && (field.value == Text(text) || (field.value.List? && Text(text) in field.value.items))
  }

  /** `{'provenance.sourceId': text}`: the path goes through one document or one array of them. */
  predicate ProvenanceMatches(row: Row, text: string) {
    && row.provenance.Some?
    && match row.provenance.value
       case List(items) => exists e :: e in items && FieldMatches(EntrySourceId(e), text)
       case other => FieldMatches(EntrySourceId(other), text)
  }

  /** First revoke pass: `{sourceIds: {$in: [target, UNKNOWN]}}`. */
  predicate Listed(row: Row, target: string) {
    FieldMatches(row.sourceIds, target) || FieldMatches(row.sourceIds, UNKNOWN)
  }

  /** Second revoke pass: provenanceDriftFilter. */
  predicate ProvenanceDrift(row: Row, target: string) {
    ProvenanceMatches(row, target) && !Listed(row, target) && WellFormedIds(row)
  }

  /** Third revoke pass: malformedLineageFallbackFilter. */
  predicate MalformedFallback(row: Row, target: string) {
    !WellFormedIds(row) && !Listed(row, target)
  }

  /** The lineage half of the gate's filter for postings a revoked source restricts. */
  predicate Restricted(row: Row, target: string) {
    Listed(row, target) || ProvenanceMatches(row, target) || !WellFormedIds(row)
  }

  // ---- Repair ----

  predicate NeedsRepair(row: Row) {
    !WellFormedIds(row) || InvalidProvenance(row) || CoverageGap(row)
  }

  /** Attribution may have been lost, so the unknown-lineage sentinel is added. */
  predicate Lossy(row: Row) {
    || |ValidProvenance(row)| == 0
    || InvalidCurrent(row)
    || InvalidProvenance(row)
    || |SafeArray(row.provenance)| >= 8
  }

  /** The update pipeline; `$setUnion` keeps each id once, in an order nothing here depends on. */
  function Rewrite(row: Row): Row {
    Row(
      Some(List(Distinct(ValidCurrent(row) + ValidProvenance(row) + if Lossy(row) then [Text(UNKNOWN)] else []))),
      Some(List(ValidEntries(row))))
  }

  function Repair(row: Row): Row { if NeedsRepair(row) then Rewrite(row) else row }

  // ---- The three passes partition the gate's filter ----

  lemma PassesPartitionRestricted(row: Row, target: string)
    ensures !(Listed(row, target) && ProvenanceDrift(row, target))
    ensures !(Listed(row, target) && MalformedFallback(row, target))
    ensures !(ProvenanceDrift(row, target) && MalformedFallback(row, target))
    ensures Restricted(row, target) <==>
              Listed(row, target) || ProvenanceDrift(row, target) || MalformedFallback(row, target)
  {}

  // ---- What the repair does ----

  lemma {:induction false} FilterAll<T(!new)>(p: T -> bool, s: seq<T>)
    requires forall x :: x in s ==> p(x)
    ensures Filter(p, s) == s
  {
    if s != [] {
      FilterAll(p, s[1..]);
      assert s == [s[0]] + s[1..];
    }
  }

  /** Membership in the ids of a row's canonical provenance entries. */
  lemma ValidProvenanceMembers(row: Row)
    ensures forall v :: v in ValidProvenance(row) <==>
              exists e :: e in SafeArray(row.provenance) && CanonicalEntry(e) && EntryId(e) == v
    ensures forall v :: v in ValidProvenance(row) ==> Canonical(v)
  {
    var entries, ids := ValidEntries(row), ValidProvenance(row);
    forall v | v in ids
      ensures exists e :: e in SafeArray(row.provenance) && CanonicalEntry(e) && EntryId(e) == v
    {
      var i :| 0 <= i < |ids| && ids[i] == v;
      assert entries[i] in SafeArray(row.provenance);
    }
    forall e | e in SafeArray(row.provenance) && CanonicalEntry(e) ensures EntryId(e) in ids {
      assert e in entries;
      var i :| 0 <= i < |entries| && entries[i] == e;
      assert ids[i] == EntryId(e);
    }
  }

  /** A rewritten row keeps exactly the canonical provenance entries it had. */
  lemma RewriteKeepsEntries(row: Row)
    ensures ValidEntries(Rewrite(row)) == ValidEntries(row)
    ensures ValidProvenance(Rewrite(row)) == ValidProvenance(row)
  {
    FilterAll(CanonicalEntry, ValidEntries(row));
  }

  /** No entry is left, something was malformed, or the list of entries was full. */
  predicate MayHaveLost(row: Row) {
    || (forall e :: e in SafeArray(row.provenance) ==> !CanonicalEntry(e))
    || (row.sourceIds.Some? && !row.sourceIds.value.List?)
    || (row.provenance.Some? && !row.provenance.value.List?)
    || (exists v :: v in SafeArray(row.sourceIds) && !Canonical(v))
    || (exists e :: e in SafeArray(row.provenance) && !CanonicalEntry(e))
    || |SafeArray(row.provenance)| >= 8
  }

  lemma LossyIff(row: Row)
    ensures Lossy(row) <==> MayHaveLost(row)
  {
    var entries := SafeArray(row.provenance);
    if ValidEntries(row) == [] {
      forall e | e in entries ensures !CanonicalEntry(e) { assert e !in ValidEntries(row); }
    } else {
      assert ValidEntries(row)[0] in ValidEntries(row);
    }
  }

  /** The durable ids after a rewrite: every canonical id of either field, and the sentinel exactly
      when it was there already or attribution may have been lost. */
  lemma RewrittenIds(row: Row)
    ensures forall v :: v in SafeArray(Rewrite(row).sourceIds) <==>
              v in ValidCurrent(row) || v in ValidProvenance(row) ||
              (v == Text("__legacy_unknown__") && MayHaveLost(row))
  {
    LossyIff(row);
  }

  lemma RewriteMeetsInvariants(row: Row)
    ensures var r := Rewrite(row); WellFormedIds(r) && !InvalidProvenance(r) && !CoverageGap(r)
  {
    var r := Rewrite(row);
    RewrittenIds(row);
    RewriteKeepsEntries(row);
    ValidProvenanceMembers(row);
    if !Lossy(row) {
      assert ValidProvenance(row)[0] in SafeArray(r.sourceIds);
    } else {
      assert Text(UNKNOWN) in SafeArray(r.sourceIds);
    }
  }

  /** The repaired row meets all three posting invariants, whatever the fields held before. */
  lemma RepairMeetsInvariants(row: Row)
    ensures !NeedsRepair(Repair(row))
    ensures Repair(Repair(row)) == Repair(row)
  {
    if NeedsRepair(row) { RewriteMeetsInvariants(row); }
  }

  /** No canonical id of either field is lost, and an id that appears from nowhere is the sentinel. */
  lemma RepairKeepsCanonicalIds(row: Row)
    ensures forall v :: v in ValidCurrent(row) || v in ValidProvenance(row) ==> v in ValidCurrent(Repair(row))
    ensures forall v :: v in ValidCurrent(Repair(row)) ==>
              v in ValidCurrent(row) || v in ValidProvenance(row) || v == Text(UNKNOWN)
    ensures ValidEntries(Repair(row)) == ValidEntries(row)
  {
    ValidProvenanceMembers(row);
    if NeedsRepair(row) {
      RewrittenIds(row);
      RewriteKeepsEntries(row);
      RewriteMeetsInvariants(row);
    }
  }

  /** On a row that needs no repair the indexed first pass alone finds every restricted posting. */
  lemma RepairedRowsNeedOnlyFirstPass(row: Row, target: string)
    requires !NeedsRepair(row)
    ensures !ProvenanceDrift(row, target) && !MalformedFallback(row, target)
    ensures Restricted(row, target) <==> Listed(row, target)
  {
    ValidProvenanceMembers(row);
    if ProvenanceMatches(row, target) {
      var e :| e in SafeArray(row.provenance) && FieldMatches(EntrySourceId(e), target);
      assert CanonicalEntry(e);
      assert EntryId(e) == Text(target);
      assert Text(target) in ValidProvenance(row);
      assert Text(target) in ValidCurrent(row);
    }
  }

  /** Nothing was recorded in `sourceIds`, and the detailed provenance is complete without `target`. */
  predicate AttributedElsewhere(row: Row, target: string) {
    && (row.sourceIds.Some? ==> row.sourceIds.value.List?)
    && SafeArray(row.sourceIds) == []
    && !InvalidProvenance(row)
    && 0 < |SafeArray(row.provenance)| < 8
    && !ProvenanceMatches(row, target)
    && !ProvenanceMatches(row, UNKNOWN)
  }

  /** After a rewrite a row is restricted for `target` through an id it kept or through the sentinel. */
  lemma RewrittenRestricted(row: Row, target: string)
    requires CanonicalText(target)
    ensures Restricted(Rewrite(row), target) <==>
              || Text(target) in ValidCurrent(row) || Text(target) in ValidProvenance(row)
              || Text(UNKNOWN) in ValidCurrent(row) || Text(UNKNOWN) in ValidProvenance(row)
              || Lossy(row)
  {
    RewriteMeetsInvariants(row);
    RepairedRowsNeedOnlyFirstPass(Rewrite(row), target);
    RewrittenIds(row);
  }

  lemma RewriteStillRestricts(row: Row, target: string)
    requires CanonicalText(target)
    requires Restricted(row, target) && !AttributedElsewhere(row, target) && !Lossy(row)
    ensures Restricted(Rewrite(row), target)
  {
    RewrittenRestricted(row, target);
    ProvenanceMatchIsMembership(row, target);
    ProvenanceMatchIsMembership(row, UNKNOWN);
    if !WellFormedIds(row) && !Listed(row, target) {
      assert SafeArray(row.sourceIds) == [];
      assert 0 < |ValidProvenance(row)| <= |SafeArray(row.provenance)|;
    }
  }

  lemma AttributedElsewhereIsNotLossy(row: Row, target: string)
    requires AttributedElsewhere(row, target)
    ensures !Lossy(row) && ValidCurrent(row) == []
    ensures Text(target) !in ValidProvenance(row) && Text(UNKNOWN) !in ValidProvenance(row)
  {
    FilterAll(CanonicalEntry, SafeArray(row.provenance));
    ProvenanceMatchIsMembership(row, target);
    ProvenanceMatchIsMembership(row, UNKNOWN);
  }

  /** Repair never lets a posting escape a revoke, except a posting restricted only because its
      `sourceIds` was missing or empty while complete provenance names other sources; and it brings
      a posting under a revoke exactly when it rewrites one whose attribution may have been lost or is recorded
      as unknown. */
  lemma RepairReleasesExactly(row: Row, target: string)
    requires CanonicalText(target)
    ensures Restricted(row, target) && !Restricted(Repair(row), target) <==> AttributedElsewhere(row, target)
    ensures !Restricted(row, target) ==>
              (Restricted(Repair(row), target) <==>
                 NeedsRepair(row) && (Lossy(row) || Text(UNKNOWN) in ValidProvenance(row)))
  {
    RewrittenRestricted(row, target);
    if AttributedElsewhere(row, target) {
      AttributedElsewhereIsNotLossy(row, target);
    } else if Restricted(row, target) && !Lossy(row) {
      RewriteStillRestricts(row, target);
    } else if !Restricted(row, target) && !Lossy(row) {
      ProvenanceMatchIsMembership(row, target);
      assert Text(UNKNOWN) !in ValidCurrent(row) && Text(target) !in ValidCurrent(row);
    }
  }

  /** A row that repair releases: no `sourceIds`, and one canonical provenance entry for another source. */
  lemma RepairCanRelease()
    ensures CanonicalText("a") && AttributedElsewhere(ENTRY_OF_B, "a")
    ensures Restricted(ENTRY_OF_B, "a") && !Restricted(Repair(ENTRY_OF_B), "a")
  {
    var entry := Document(map["sourceId" := Text("b")]);
    assert SafeArray(ENTRY_OF_B.provenance) == [entry] && EntrySourceId(entry) == Some(Text("b"));
    assert IsLead("b"[0]);
    assert CanonicalEntry(entry);
    RepairReleasesExactly(ENTRY_OF_B, "a");
  }

  const ENTRY_OF_B := Row(None, Some(List([Document(map["sourceId" := Text("b")])])))

  /** The path query reads `sourceId` of a lone document as of the documents of an array, and looks into an array
      that is found there. */
  lemma PathQueryIff(row: Row, text: string)
    ensures ProvenanceMatches(row, text) <==>
              row.provenance.Some? && exists e ::
                && (e == row.provenance.value || e in SafeArray(row.provenance))
                && e.Document? && "sourceId" in e.fields
                && (e.fields["sourceId"] == Text(text) || Text(text) in SafeArray(Some(e.fields["sourceId"])))
  {
    if row.provenance.Some? && !row.provenance.value.List? {
      assert SafeArray(row.provenance) == [];
    }
  }

  lemma ProvenanceMatchIsMembership(row: Row, t: string)
    requires !InvalidProvenance(row)
    ensures ProvenanceMatches(row, t) <==> Text(t) in ValidProvenance(row)
  {
    ValidProvenanceMembers(row);
    if Text(t) in ValidProvenance(row) {
      var e :| e in SafeArray(row.provenance) && CanonicalEntry(e) && EntryId(e) == Text(t);
      assert FieldMatches(EntrySourceId(e), t);
    }
  }
}
