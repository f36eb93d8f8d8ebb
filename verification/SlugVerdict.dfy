/** When the slug planner succeeds, said of the stored documents alone. */
module SlugVerdict {
  import opened Wrappers
  import opened Seqs
  import opened SlugPlan
  import opened SlugOrder
  import opened SlugBackfill
  import opened SlugFixpoint

  /** A reservation as it may be stored: a retired one holds nothing but its hash, an active one is the hash of its
      slug and names an owner. */
  ghost predicate RowValid(policy: Policy, row: RawReservation) {
    && row.id.HashText?
    && ((row.state == RetiredState && row.slug == NoText && row.workspaceId == NoOwner)
        || (&& row.state == ActiveState && row.slug.Text? && row.workspaceId.ObjectId?
            && policy.parse(row.slug.text) == Some(row.slug.text) && row.id.digest == Sha256(row.slug.text)))
  }

  /** The active reservation of the workspace's slug, in its name. */
  predicate Owns(w: Workspace, row: RawReservation) {
    && w.signInSlug.Present? && row.state == ActiveState
    && row.slug == Text(w.signInSlug.text) && row.workspaceId == ObjectId(w.id)
  }

  /** The workspace's slug parses to itself, is worn by no other workspace, and is reserved for no other. */
  ghost predicate NameValid(policy: Policy, ws: seq<Workspace>, rows: seq<RawReservation>, w: Workspace) {
    Named(w) ==>
      && policy.parse(w.signInSlug.text) == Some(w.signInSlug.text)
      && (forall v :: v in ws && v.signInSlug == w.signInSlug ==> v == w)
      && (forall row :: row in rows && row.id == HashText(Sha256(w.signInSlug.text)) ==> Owns(w, row))
  }

  predicate Worn(ws: seq<Workspace>, row: RawReservation) {
    row.state == ActiveState ==> exists w :: w in ws && Named(w) && Owns(w, row)
  }

  function NamesOf(ws: seq<Workspace>): set<string> { set w | w in ws && Named(w) :: SlugOf(w) }

  function DigestsOf(rows: seq<RawReservation>): set<Digest> {
    set row | row in rows && row.id.HashText? :: row.id.digest
  }

  /** Every workspace without a slug finds a candidate, in the order of the ids. */
  ghost predicate Assignable(policy: Policy, ws: seq<Workspace>, rows: seq<RawReservation>) {
    AssignUnnamed(policy, Filter(Unnamed, SortById(ws)), NamesOf(ws), DigestsOf(rows)).Ok?
  }

  ghost predicate InOrder(policy: Policy, ws: seq<Workspace>, rows: seq<RawReservation>) {
    && (forall row :: row in rows ==> RowValid(policy, row) && Worn(ws, row))
    && (forall w :: w in ws ==> NameValid(policy, ws, rows, w))
  }

  lemma RowValidIff(policy: Policy, row: RawReservation)
    ensures ValidateRow(policy, row).Ok? <==> RowValid(policy, row)
    ensures RowValid(policy, row) ==>
              ValidateRow(policy, row) ==
                Ok(if row.state == ActiveState then Active(row.id.digest, row.slug.text, row.workspaceId.id)
                   else Retired(row.id.digest))
  {}

  lemma ValidIff(policy: Policy, rows: seq<RawReservation>)
    ensures Validate(policy, rows).Ok? <==> forall row :: row in rows ==> RowValid(policy, row)
  {
    ValidateMembers(policy, rows);
    forall row | row in rows ensures ValidateRow(policy, row).Ok? <==> RowValid(policy, row) {
      RowValidIff(policy, row);
    }
  }

  /** What the index holds under a hash is the stored row of that hash. */
  lemma RowAt(policy: Policy, rows: seq<RawReservation>, hash: Digest) returns (row: RawReservation)
    requires Validate(policy, rows).Ok? && hash in Index(Validate(policy, rows).value)
    ensures row in rows && row.id == HashText(hash) && RowValid(policy, row)
    ensures ValidateRow(policy, row) == Ok(Index(Validate(policy, rows).value)[hash])
  {
    var valid := Validate(policy, rows).value;
    ValidateMembers(policy, rows);
    IndexMembers(valid);
    var i :| 0 <= i < |valid| && valid[i] == Index(valid)[hash];
    row := rows[i];
    RowValidIff(policy, row);
  }

  lemma IndexAt(policy: Policy, rows: seq<RawReservation>, row: RawReservation)
    requires UniqueRows(rows) && Validate(policy, rows).Ok? && row in rows
    ensures RowValid(policy, row) && row.id.digest in Index(Validate(policy, rows).value)
    ensures ValidateRow(policy, row) == Ok(Index(Validate(policy, rows).value)[row.id.digest])
  {
    var valid := Validate(policy, rows).value;
    ValidateMembers(policy, rows);
    ValidatedAreUnique(policy, rows);
    IndexMembers(valid);
    var i :| 0 <= i < |rows| && rows[i] == row;
    assert valid[i] in valid;
    RowValidIff(policy, row);
  }

  lemma MatchingIffOwns(policy: Policy, row: RawReservation, w: Workspace)
    requires RowValid(policy, row) && Named(w)
    ensures Matching(ValidateRow(policy, row).value, w) <==> Owns(w, row)
  {
    RowValidIff(policy, row);
  }

  lemma SettledIff(policy: Policy, rows: seq<RawReservation>, w: Workspace)
    requires UniqueRows(rows) && Validate(policy, rows).Ok? && Named(w)
    ensures Settled(policy, Index(Validate(policy, rows).value), w) <==>
              && policy.parse(w.signInSlug.text) == Some(w.signInSlug.text)
              && forall row :: row in rows && row.id == HashText(Sha256(w.signInSlug.text)) ==> Owns(w, row)
  {
    var index, hash := Index(Validate(policy, rows).value), Sha256(SlugOf(w));
    forall row | row in rows && row.id == HashText(hash)
      ensures hash in index && (Matching(index[hash], w) <==> Owns(w, row))
    {
      IndexAt(policy, rows, row);
      MatchingIffOwns(policy, row, w);
    }
    if hash in index { var row := RowAt(policy, rows, hash); }
  }

  /** Named workspaces with different ids and distinct slugs. */
  lemma DistinctIff(ws: seq<Workspace>, named: seq<Workspace>)
    requires UniqueIds(ws) && UniqueIds(named) && forall w :: w in named <==> w in ws && Named(w)
    ensures SlugsDistinct(named) <==>
              forall v, w :: v in ws && w in ws && Named(w) && v.signInSlug == w.signInSlug ==> v == w
  {
    if SlugsDistinct(named) {
      forall v, w | v in ws && w in ws && Named(w) && v.signInSlug == w.signInSlug ensures v == w {
        assert v in named && w in named;
        var i :| 0 <= i < |named| && named[i] == v;
        var j :| 0 <= j < |named| && named[j] == w;
        assert i == j;
      }
    } else {
      var i, j :| 0 <= i < j < |named| && SlugOf(named[i]) == SlugOf(named[j]);
      assert named[i] in named && named[j] in named;
      assert named[i].id != named[j].id && named[i].signInSlug == named[j].signInSlug;
    }
  }

  lemma ScanIff(policy: Policy, ws: seq<Workspace>, rows: seq<RawReservation>)
    requires UniqueIds(ws) && UniqueRows(rows) && Validate(policy, rows).Ok?
    ensures ScanNamed(policy, Index(Validate(policy, rows).value), NOTHING_SCANNED,
                      Filter(Named, SortById(ws))).Ok? <==>
              forall w :: w in ws ==> NameValid(policy, ws, rows, w)
  {
    var index, named := Index(Validate(policy, rows).value), Filter(Named, SortById(ws));
    SortByIdSorts(ws);
    FilterUnique(Named, SortById(ws));
    assert forall w :: w in named <==> w in ws && Named(w);
    DistinctIff(ws, named);
    forall w | w in named
      ensures Settled(policy, index, w) <==>
                && policy.parse(w.signInSlug.text) == Some(w.signInSlug.text)
                && forall row :: row in rows && row.id == HashText(Sha256(w.signInSlug.text)) ==> Owns(w, row)
    {
      SettledIff(policy, rows, w);
    }
    if ScanNamed(policy, index, NOTHING_SCANNED, named).Ok? {
      ScanSettles(policy, index, NOTHING_SCANNED, named);
      forall w | w in ws ensures NameValid(policy, ws, rows, w) { if Named(w) { assert w in named; } }
    }
    if forall w :: w in ws ==> NameValid(policy, ws, rows, w) {
      forall w | w in named ensures Settled(policy, index, w) { assert NameValid(policy, ws, rows, w); }
      forall v, w | v in ws && w in ws && Named(w) && v.signInSlug == w.signInSlug ensures v == w {
        assert NameValid(policy, ws, rows, w);
      }
      SettledScans(policy, index, NOTHING_SCANNED, named);
    }
  }

  /** After the scan of `named`: an active row is matched exactly when a workspace wears it. */
  lemma MatchedIffWorn(policy: Policy, ws: seq<Workspace>, rows: seq<RawReservation>, named: seq<Workspace>,
                       row: RawReservation)
    requires UniqueRows(rows) && Validate(policy, rows).Ok? && row in rows && RowValid(policy, row)
    requires forall w :: w in named <==> w in ws && Named(w)
    requires forall w :: w in named ==> Settled(policy, Index(Validate(policy, rows).value), w)
    ensures row.state == ActiveState ==>
              (row.id.digest in Hashes(Index(Validate(policy, rows).value), named) <==> Worn(ws, row))
  {
    var index := Index(Validate(policy, rows).value);
    HashesMembers(index, named, row.id.digest);
    IndexAt(policy, rows, row);
    if row.state == ActiveState {
      if row.id.digest in Hashes(index, named) {
        var w :| w in named && Sha256(SlugOf(w)) == row.id.digest;
        MatchingIffOwns(policy, row, w);
        assert Settled(policy, index, w) && Owns(w, row);
      }
      if Worn(ws, row) {
        var w :| w in ws && Named(w) && Owns(w, row);
        assert w in named && Sha256(SlugOf(w)) == row.id.digest;
      }
    }
  }

  lemma OrphanIff(policy: Policy, ws: seq<Workspace>, rows: seq<RawReservation>, named: seq<Workspace>,
                  matched: set<Digest>)
    requires UniqueRows(rows) && Validate(policy, rows).Ok?
    requires forall w :: w in named <==> w in ws && Named(w)
    requires forall w :: w in named ==> Settled(policy, Index(Validate(policy, rows).value), w)
    requires matched == Hashes(Index(Validate(policy, rows).value), named)
    ensures FirstOrphan(Validate(policy, rows).value, matched).None? <==> forall row :: row in rows ==> Worn(ws, row)
  {
    var valid := Validate(policy, rows).value;
    ValidateMembers(policy, rows);
    ValidIff(policy, rows);
    NoOrphanIff(valid, matched);
    forall i | 0 <= i < |rows| ensures Orphan(valid[i], matched) <==> !Worn(ws, rows[i]) {
      assert rows[i] in rows;
      RowValidIff(policy, rows[i]);
      MatchedIffWorn(policy, ws, rows, named, rows[i]);
    }
    if forall row :: row in rows ==> Worn(ws, row) {
      forall r | r in valid ensures !Orphan(r, matched) {
        var i :| 0 <= i < |valid| && valid[i] == r;
        assert rows[i] in rows;
      }
    } else {
      var row :| row in rows && !Worn(ws, row);
      var i :| 0 <= i < |rows| && rows[i] == row;
      assert valid[i] in valid;
    }
  }

  lemma NamesIff(ws: seq<Workspace>, named: seq<Workspace>)
    requires forall w :: w in named <==> w in ws && Named(w)
    ensures Slugs(named) == NamesOf(ws)
  {
    forall slug ensures slug in Slugs(named) <==> slug in NamesOf(ws) { SlugsMembers(named, slug); }
  }

  lemma DigestsIff(policy: Policy, rows: seq<RawReservation>)
    requires UniqueRows(rows) && Validate(policy, rows).Ok?
    ensures Index(Validate(policy, rows).value).Keys == DigestsOf(rows)
  {
    var index := Index(Validate(policy, rows).value);
    forall hash ensures hash in index <==> hash in DigestsOf(rows) {
      if hash in index { var row := RowAt(policy, rows, hash); }
      if hash in DigestsOf(rows) {
        var row :| row in rows && row.id.HashText? && row.id.digest == hash;
        IndexAt(policy, rows, row);
      }
    }
  }

  /** What a successful scan of the named workspaces has collected. */
  lemma ScannedNames(policy: Policy, ws: seq<Workspace>, rows: seq<RawReservation>, scan: Scan)
    requires UniqueIds(ws) && UniqueRows(rows) && Validate(policy, rows).Ok?
    requires ScanNamed(policy, Index(Validate(policy, rows).value), NOTHING_SCANNED, Filter(Named, SortById(ws))) ==
             Ok(scan)
    ensures scan.occupied.Keys == NamesOf(ws)
    ensures FirstOrphan(Validate(policy, rows).value, scan.matched).None? <==>
              forall row :: row in rows ==> Worn(ws, row)
  {
    var index, named := Index(Validate(policy, rows).value), Filter(Named, SortById(ws));
    SortByIdSorts(ws);
    assert forall w :: w in named <==> w in ws && Named(w);
    ScanSettles(policy, index, NOTHING_SCANNED, named);
    ScanCollects(policy, index, NOTHING_SCANNED, named);
    OrphanIff(policy, ws, rows, named, scan.matched);
    NamesIff(ws, named);
  }

  lemma ScannedVerdict(policy: Policy, ws: seq<Workspace>, rows: seq<RawReservation>, scan: Scan)
    requires UniqueIds(ws) && UniqueRows(rows) && Validate(policy, rows).Ok?
    requires ScanNamed(policy, Index(Validate(policy, rows).value), NOTHING_SCANNED, Filter(Named, SortById(ws))) ==
             Ok(scan)
    ensures Plan(policy, ws, rows).Ok? <==>
              (forall row :: row in rows ==> Worn(ws, row)) && Assignable(policy, ws, rows)
  {
    ScannedNames(policy, ws, rows, scan);
    DigestsIff(policy, rows);
  }

  /** The planner succeeds exactly when every reservation is valid and worn, every slug in use parses to itself and is
      its workspace's alone, and every workspace without a slug finds a free candidate. */
  lemma PlanSucceedsIff(policy: Policy, ws: seq<Workspace>, rows: seq<RawReservation>)
    requires UniqueIds(ws) && UniqueRows(rows)
    ensures Plan(policy, ws, rows).Ok? <==> InOrder(policy, ws, rows) && Assignable(policy, ws, rows)
  {
    ValidIff(policy, rows);
    if Validate(policy, rows).Ok? {
      ScanIff(policy, ws, rows);
      var scan := ScanNamed(policy, Index(Validate(policy, rows).value), NOTHING_SCANNED,
                            Filter(Named, SortById(ws)));
      if scan.Ok? { ScannedVerdict(policy, ws, rows, scan.value); }
    }
  }
}
