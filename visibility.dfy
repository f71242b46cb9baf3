/** Tenant visibility of catalogue rows: `TenantAwareQuerySet.visible_to`.

    A catalogue row belongs to one organization, or to none (a global row).
    `visible_to(org)` first keeps the rows in the viewer's scope and then,
    for the one table that has a block list, excludes the rows whose block
    list matches the viewer. Both steps are modelled exactly as Django
    evaluates them, including the `org = None` case of the second step. */
module Visibility {
  import opened Base

  /** The five tenant-aware catalogue tables. */
  datatype Kind = Industry | Service | BusinessCycle | FunctionalArea | Provider

  /** `hasattr(model, "blocked_for")`: only Industry mixes in the block list. */
  predicate HasBlockList(k: Kind) {
    k == Industry
  }

  /** What `visible_to` looks at in a row: its key, its owner (None for a
      global row) and its block list (always empty for tables without one). */
  datatype Row = Row(id: nat, org: Option<OrgId>, blocked: set<OrgId>)

  /** Step 1, the organization-scoped filter: only global rows for no viewer,
      global rows and the viewer's own rows otherwise. */
  predicate InScope(r: Row, viewer: Option<OrgId>) {
    match viewer
    case None => r.org == None
    case Some(o) => r.org == None || r.org == Some(o)
  }

  /** The rows that step 2, `exclude(blocked_for=org)`, removes. Django reads
      `blocked_for=None` on a many-to-many field as "has no blocked_for
      entry", so with no viewer it is the rows whose block list is EMPTY. */
  predicate MatchesBlockFilter(r: Row, viewer: Option<OrgId>) {
    match viewer
    case None => r.blocked == {}
    case Some(o) => o in r.blocked
  }

  /** Whether `visible_to(viewer)` on table `k` keeps row `r`. */
  predicate IsVisible(k: Kind, r: Row, viewer: Option<OrgId>) {
    InScope(r, viewer) && !(HasBlockList(k) && MatchesBlockFilter(r, viewer))
  }

  /** `visible_to(viewer)` over a table listed in some order: the visible rows,
      in the order the caller gave them. */
  function VisibleTo(k: Kind, rows: seq<Row>, viewer: Option<OrgId>): (result: seq<Row>)
    ensures |result| <= |rows|
    ensures rows == [] ==> result == []
  {
    if rows == [] then []
    else if IsVisible(k, rows[0], viewer) then [rows[0]] + VisibleTo(k, rows[1..], viewer)
    else VisibleTo(k, rows[1..], viewer)
  }

  /** A row is in the result exactly when it is in the input and visible. */
  lemma {:induction false} VisibleToMembers(k: Kind, rows: seq<Row>, viewer: Option<OrgId>)
    ensures forall r :: r in VisibleTo(k, rows, viewer) <==> r in rows && IsVisible(k, r, viewer)
  {
    if rows != [] {
      VisibleToMembers(k, rows[1..], viewer);
      assert rows == [rows[0]] + rows[1..];
    }
  }

  /** Without a viewer, a table without a block list shows exactly its global rows. */
  lemma NoViewerSeesGlobalRows(k: Kind, rows: seq<Row>)
    requires !HasBlockList(k)
    ensures forall r :: r in VisibleTo(k, rows, None) <==> r in rows && r.org == None
  {
    VisibleToMembers(k, rows, None);
  }

  /** Without a viewer, Industry shows only the global rows that are blocked
      for at least one organization: `exclude(blocked_for=None)` drops the
      global rows with an empty block list. */
  lemma NoViewerSeesBlockedGlobalIndustries(rows: seq<Row>)
    ensures forall r :: r in VisibleTo(Industry, rows, None) <==>
                        r in rows && r.org == None && r.blocked != {}
  {
    VisibleToMembers(Industry, rows, None);
  }

  /** A global industry that nobody blocks is hidden from a caller without an
      organization. */
  lemma UnblockedGlobalIndustryHiddenWithoutViewer(r: Row)
    requires r.org == None && r.blocked == {}
    ensures VisibleTo(Industry, [r], None) == []
  {
    assert !IsVisible(Industry, r, None);
    assert VisibleTo(Industry, [r], None) == VisibleTo(Industry, [], None);
  }

  /** An organization never sees a row owned by another organization. */
  lemma NoForeignRows(k: Kind, rows: seq<Row>, o: OrgId)
    ensures forall r :: r in VisibleTo(k, rows, Some(o)) ==> r.org == None || r.org == Some(o)
  {
    VisibleToMembers(k, rows, Some(o));
  }

  /** For a table without a block list, an organization sees exactly the
      global rows plus its own rows. */
  lemma TenantSeesGlobalAndOwnRows(k: Kind, rows: seq<Row>, o: OrgId)
    requires !HasBlockList(k)
    ensures forall r :: r in VisibleTo(k, rows, Some(o)) <==>
                        r in rows && (r.org == None || r.org == Some(o))
  {
    VisibleToMembers(k, rows, Some(o));
  }

  /** For Industry, an organization sees the global rows and its own rows
      except those whose block list names it, whoever owns them. */
  lemma TenantSeesUnblockedIndustries(rows: seq<Row>, o: OrgId)
    ensures forall r :: r in VisibleTo(Industry, rows, Some(o)) <==>
                        r in rows && (r.org == None || r.org == Some(o)) && o !in r.blocked
  {
    VisibleToMembers(Industry, rows, Some(o));
  }

  /** The block list hides a row even from the organization that owns it. */
  lemma BlockListHidesOwnIndustry(r: Row, o: OrgId)
    requires r.org == Some(o) && o in r.blocked
    ensures VisibleTo(Industry, [r], Some(o)) == []
  {
    assert !IsVisible(Industry, r, Some(o));
    assert VisibleTo(Industry, [r], Some(o)) == VisibleTo(Industry, [], Some(o));
  }

  /** `visible_to` only filters: every row of the result is taken from the
      input, no more often than it occurs there. */
  lemma {:induction false} VisibleToIsSubMultiset(k: Kind, rows: seq<Row>, viewer: Option<OrgId>)
    ensures multiset(VisibleTo(k, rows, viewer)) <= multiset(rows)
  {
    if rows != [] {
      VisibleToIsSubMultiset(k, rows[1..], viewer);
      assert rows == [rows[0]] + rows[1..];
    }
  }

  /** Filtering keeps the caller's order: it distributes over concatenation. */
  lemma {:induction false} VisibleToAppend(k: Kind, a: seq<Row>, b: seq<Row>, viewer: Option<OrgId>)
    ensures VisibleTo(k, a + b, viewer) == VisibleTo(k, a, viewer) + VisibleTo(k, b, viewer)
  {
    if a == [] {
      assert a + b == b;
    } else {
      VisibleToAppend(k, a[1..], b, viewer);
      assert (a + b)[0] == a[0];
      assert (a + b)[1..] == a[1..] + b;
    }
  }

  /** Applying `visible_to` twice for the same viewer changes nothing. */
  lemma {:induction false} VisibleToIdempotent(k: Kind, rows: seq<Row>, viewer: Option<OrgId>)
    ensures VisibleTo(k, VisibleTo(k, rows, viewer), viewer) == VisibleTo(k, rows, viewer)
  {
    if rows != [] {
      VisibleToIdempotent(k, rows[1..], viewer);
      if IsVisible(k, rows[0], viewer) {
        var rest := VisibleTo(k, rows[1..], viewer);
        assert ([rows[0]] + rest)[0] == rows[0];
        assert ([rows[0]] + rest)[1..] == rest;
      }
    }
  }
}
