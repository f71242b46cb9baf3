/** The tenant catalogue and the proposal tables as one in-memory store.

    The store keeps the rows of the five catalogue tables (Industry, Service,
    BusinessCycle, FunctionalArea, Provider), the generated proposals (RFPs),
    the three join tables that attach services, business cycles and
    functional areas to a proposal, the finalized proposals, the
    business-cycle assignments and the set of users. Each insert enforces the
    table's unique constraint and foreign keys; each delete applies the
    `on_delete` policy of every reference into the deleted row from the
    tables kept here (references from other tables are not modelled): PROTECT
    refuses the delete, CASCADE deletes the referring rows, SET_NULL clears
    the reference. A failed operation changes nothing. */
module CatalogueStore {
  import opened Base
  import opened Visibility

  /** A catalogue row is identified by its table and its key in that table. */
  datatype RowKey = RowKey(kind: Kind, id: nat)

  /** A catalogue row. `name` is the natural key (`company_name` for a
      Provider), `blocked` the Industry block list, `creator` the user who
      created the row and `cycle` a FunctionalArea's business cycle. */
  datatype Entry = Entry(org: Option<OrgId>, name: string, blocked: set<OrgId>,
                         creator: Option<UserId>, cycle: Option<nat>)

  /** A GeneratedRFP: its organization, its owner and its industry. */
  datatype Rfp = Rfp(org: Option<OrgId>, owner: UserId, industry: nat)

  datatype Priority = Low | Medium | High

  /** A row of one of the three join tables. Both references of the service
      join are nullable; those of the other two are not. */
  datatype Link =
    | ServiceLink(serviceRfp: Option<nat>, service: Option<nat>)
    | CycleLink(cycleRfp: nat, cycle: nat)
    | AreaLink(areaRfp: nat, area: nat, priority: Priority)

  /** The proposal a join row belongs to. */
  function LinkRfp(l: Link): Option<nat> {
    match l
    case ServiceLink(r, _) => r
    case CycleLink(r, _) => Some(r)
    case AreaLink(r, _, _) => Some(r)
  }

  /** The catalogue row a join row refers to. */
  function LinkTarget(l: Link): Option<RowKey> {
    match l
    case ServiceLink(_, s) => if s.Some? then Some(RowKey(Service, s.value)) else None
    case CycleLink(_, c) => Some(RowKey(BusinessCycle, c))
    case AreaLink(_, a, _) => Some(RowKey(FunctionalArea, a))
  }

  /** A FinalizedRFP: the proposal it was taken from (None once that proposal
      is deleted) and its organization. Its snapshot content is opaque. */
  datatype Finalized = Finalized(source: Option<nat>, org: OrgId)

  /** A UserBusinessCycleAssignment; all three references are nullable. */
  datatype Assignment = Assignment(user: Option<UserId>, org: Option<OrgId>, cycle: Option<nat>)

  datatype StoreError =
    | KeyInUse                               // the primary key is taken
    | NotFound                               // no row with that key
    | MissingReference                       // a foreign key names no row, or a required one is null
    | DuplicateInScope(org: OrgId, name: string)  // unique (organization, name) violated
    | DuplicatePair                          // a unique pair of references violated
    | ReferencedRowProtected                 // on_delete=PROTECT refuses the delete

  datatype Outcome = Done | Failed(error: StoreError)

  // ------------------------------------------------------------------
  //  Constraints
  // ------------------------------------------------------------------

  /** Two rows that `UniqueConstraint(fields=['organization', name])` forbids
      side by side: same table, same non-null organization, same name.
      PostgreSQL treats nulls as distinct, so global rows never clash. */
  predicate Clash(k1: RowKey, e1: Entry, k2: RowKey, e2: Entry) {
    k1.kind == k2.kind && e1.org.Some? && e1.org == e2.org && e1.name == e2.name
  }

  predicate ScopedUnique(rows: map<RowKey, Entry>) {
    forall k1, k2 | k1 in rows && k2 in rows && k1 != k2 :: !Clash(k1, rows[k1], k2, rows[k2])
  }

  /** Inserting `e` at `key` would break the per-tenant unique constraint. */
  predicate NameTaken(rows: map<RowKey, Entry>, key: RowKey, e: Entry) {
    exists k | k in rows :: Clash(k, rows[k], key, e)
  }

  /** Only FunctionalArea has a business cycle, only Industry a block list. */
  predicate RowShape(k: RowKey, e: Entry) {
    (k.kind == FunctionalArea <==> e.cycle.Some?) && (HasBlockList(k.kind) || e.blocked == {})
  }

  /** The foreign keys of a catalogue row name existing rows. */
  predicate RowRefsExist(rows: map<RowKey, Entry>, users: set<UserId>, e: Entry) {
    (e.creator.Some? ==> e.creator.value in users) &&
    (e.cycle.Some? ==> RowKey(BusinessCycle, e.cycle.value) in rows)
  }

  predicate RowsLinked(rows: map<RowKey, Entry>, users: set<UserId>) {
    forall k | k in rows :: RowShape(k, rows[k]) && RowRefsExist(rows, users, rows[k])
  }

  predicate RfpRefsExist(rows: map<RowKey, Entry>, users: set<UserId>, r: Rfp) {
    r.owner in users && RowKey(Industry, r.industry) in rows
  }

  predicate RfpsLinked(rfps: map<nat, Rfp>, rows: map<RowKey, Entry>, users: set<UserId>) {
    forall r | r in rfps :: RfpRefsExist(rows, users, rfps[r])
  }

  predicate LinkRefsExist(rfps: map<nat, Rfp>, rows: map<RowKey, Entry>, l: Link) {
    (LinkRfp(l).Some? ==> LinkRfp(l).value in rfps) &&
    (LinkTarget(l).Some? ==> LinkTarget(l).value in rows)
  }

  predicate LinksLinked(links: map<nat, Link>, rfps: map<nat, Rfp>, rows: map<RowKey, Entry>) {
    forall i | i in links :: LinkRefsExist(rfps, rows, links[i])
  }

  /** Two join rows of one table with the same non-null proposal and target:
      what the join tables' unique constraints forbid. */
  predicate SamePair(l1: Link, l2: Link) {
    LinkRfp(l1).Some? && LinkTarget(l1).Some? &&
    LinkRfp(l1) == LinkRfp(l2) && LinkTarget(l1) == LinkTarget(l2)
  }

  predicate LinksUnique(links: map<nat, Link>) {
    forall i, j | i in links && j in links && i != j :: !SamePair(links[i], links[j])
  }

  predicate PairTaken(links: map<nat, Link>, l: Link) {
    exists i | i in links :: SamePair(links[i], l)
  }

  predicate FinalizedLinked(finalized: map<nat, Finalized>, rfps: map<nat, Rfp>) {
    forall f | f in finalized :: finalized[f].source.Some? ==> finalized[f].source.value in rfps
  }

  predicate AssignmentRefsExist(users: set<UserId>, rows: map<RowKey, Entry>, a: Assignment) {
    (a.user.Some? ==> a.user.value in users) &&
    (a.cycle.Some? ==> RowKey(BusinessCycle, a.cycle.value) in rows)
  }

  predicate AssignmentsLinked(assignments: map<nat, Assignment>, users: set<UserId>, rows: map<RowKey, Entry>) {
    forall a | a in assignments :: AssignmentRefsExist(users, rows, assignments[a])
  }

  /** Two assignments of one business cycle within one organization: what
      `unique_org_business_cycle_assignment` forbids (nulls never clash). */
  predicate SamePlacement(a1: Assignment, a2: Assignment) {
    a1.org.Some? && a1.cycle.Some? && a1.org == a2.org && a1.cycle == a2.cycle
  }

  predicate AssignmentsUnique(assignments: map<nat, Assignment>) {
    forall i, j | i in assignments && j in assignments && i != j ::
      !SamePlacement(assignments[i], assignments[j])
  }

  predicate PlacementTaken(assignments: map<nat, Assignment>, a: Assignment) {
    exists i | i in assignments :: SamePlacement(assignments[i], a)
  }

  // ------------------------------------------------------------------
  //  What a delete takes with it
  // ------------------------------------------------------------------

  /** The catalogue rows deleting `key` removes: the row itself and, for a
      business cycle, its functional areas (CASCADE). */
  function Doomed(rows: map<RowKey, Entry>, key: RowKey): set<RowKey> {
    {key} + (if key.kind == BusinessCycle
             then set k | k in rows && k.kind == FunctionalArea && rows[k].cycle == Some(key.id)
             else {})
  }

  /** Some join row still refers to one of the rows to delete (PROTECT). */
  predicate Protects(links: map<nat, Link>, doomed: set<RowKey>) {
    exists i | i in links :: LinkTarget(links[i]).Some? && LinkTarget(links[i]).value in doomed
  }

  /** The proposals deleting catalogue row `key` removes: those of a deleted
      industry (GeneratedRFP.industry is CASCADE). */
  function RfpsOfIndustry(rfps: map<nat, Rfp>, key: RowKey): set<nat> {
    if key.kind == Industry then set r | r in rfps && rfps[r].industry == key.id else {}
  }

  predicate RefersToRfpIn(l: Link, gone: set<nat>) {
    LinkRfp(l).Some? && LinkRfp(l).value in gone
  }

  /** The join rows left after the proposals `gone` are deleted (CASCADE):
      exactly those of other proposals, unchanged. */
  function LinksWithoutRfps(links: map<nat, Link>, gone: set<nat>): map<nat, Link> {
    map i | i in links && !RefersToRfpIn(links[i], gone) :: links[i]
  }

  /** The finalized proposals after the proposals `gone` are deleted
      (SET_NULL): all kept, with the source cleared where it was deleted. */
  function DetachFinalized(finalized: map<nat, Finalized>, gone: set<nat>): map<nat, Finalized> {
    map f | f in finalized ::
      if finalized[f].source.Some? && finalized[f].source.value in gone
      then finalized[f].(source := None) else finalized[f]
  }

  /** The assignments left after catalogue row `key` is deleted: a deleted
      business cycle takes its assignments with it (CASCADE). */
  function AssignmentsAfterRowDelete(assignments: map<nat, Assignment>, key: RowKey): map<nat, Assignment> {
    map a | a in assignments && !(key.kind == BusinessCycle && assignments[a].cycle == Some(key.id)) ::
      assignments[a]
  }

  /** The catalogue rows after user `u` is deleted: all kept, the creator
      cleared where it was `u` (SET_NULL). */
  function ForgetCreator(rows: map<RowKey, Entry>, u: UserId): map<RowKey, Entry> {
    map k | k in rows :: if rows[k].creator == Some(u) then rows[k].(creator := None) else rows[k]
  }

  // ------------------------------------------------------------------
  //  The store
  // ------------------------------------------------------------------

  class Store {
    var users: set<UserId>
    var rows: map<RowKey, Entry>
    var rfps: map<nat, Rfp>
    var links: map<nat, Link>
    var finalized: map<nat, Finalized>
    var assignments: map<nat, Assignment>

    /** Every constraint the tables declare holds. */
    ghost predicate Valid()
      reads this
    {
      && RowsLinked(rows, users) && ScopedUnique(rows)
      && RfpsLinked(rfps, rows, users)
      && LinksLinked(links, rfps, rows) && LinksUnique(links)
      && FinalizedLinked(finalized, rfps)
      && AssignmentsLinked(assignments, users, rows) && AssignmentsUnique(assignments)
    }

    constructor ()
      ensures Valid()
      ensures users == {} && rows == map[] && rfps == map[] && links == map[]
      ensures finalized == map[] && assignments == map[]
    {
      users, rows, rfps, links, finalized, assignments := {}, map[], map[], map[], map[], map[];
    }

    method AddUser(u: UserId) returns (res: Outcome)
      requires Valid()
      modifies this`users
      ensures Valid()
      ensures res == (if u in old(users) then Failed(KeyInUse) else Done)
      ensures users == old(users) + {u}
    {
      if u in users {
        return Failed(KeyInUse);
      }
      users := users + {u};
      res := Done;
    }

    /** Insert a catalogue row. A row with an organization is refused when
        its table already holds a row of that organization with that name;
        a global row is never refused for its name. */
    method InsertRow(key: RowKey, e: Entry) returns (res: Outcome)
      requires Valid()
      requires key.kind != FunctionalArea ==> e.cycle == None
      requires !HasBlockList(key.kind) ==> e.blocked == {}
      modifies this`rows
      ensures Valid()
      ensures key in old(rows) ==> res == Failed(KeyInUse)
      ensures key !in old(rows) && NameTaken(old(rows), key, e) ==>
                res == Failed(DuplicateInScope(e.org.value, e.name))
      ensures res.Done? <==>
                key !in old(rows) && !NameTaken(old(rows), key, e) &&
                (key.kind == FunctionalArea ==> e.cycle.Some?) && RowRefsExist(old(rows), users, e)
      ensures rows == if res.Done? then old(rows)[key := e] else old(rows)
    {
      if key in rows {
        return Failed(KeyInUse);
      }
      if NameTaken(rows, key, e) {
        return Failed(DuplicateInScope(e.org.value, e.name));
      }
      if (key.kind == FunctionalArea && e.cycle == None) || !RowRefsExist(rows, users, e) {
        return Failed(MissingReference);
      }
      rows := rows[key := e];
      res := Done;
    }

    method InsertRfp(id: nat, r: Rfp) returns (res: Outcome)
      requires Valid()
      modifies this`rfps
      ensures Valid()
      ensures res.Done? <==> id !in old(rfps) && RfpRefsExist(rows, users, r)
      ensures rfps == if res.Done? then old(rfps)[id := r] else old(rfps)
    {
      if id in rfps {
        return Failed(KeyInUse);
      }
      if !RfpRefsExist(rows, users, r) {
        return Failed(MissingReference);
      }
      rfps := rfps[id := r];
      res := Done;
    }

    /** Insert a join row. A second row of one table with the same proposal
        and the same catalogue row is refused. */
    method InsertLink(id: nat, l: Link) returns (res: Outcome)
      requires Valid()
      modifies this`links
      ensures Valid()
      ensures id !in old(links) && PairTaken(old(links), l) ==> res == Failed(DuplicatePair)
      ensures res.Done? <==> id !in old(links) && !PairTaken(old(links), l) && LinkRefsExist(rfps, rows, l)
      ensures links == if res.Done? then old(links)[id := l] else old(links)
    {
      if id in links {
        return Failed(KeyInUse);
      }
      if PairTaken(links, l) {
        return Failed(DuplicatePair);
      }
      if !LinkRefsExist(rfps, rows, l) {
        return Failed(MissingReference);
      }
      links := links[id := l];
      res := Done;
    }

    method DeleteLink(id: nat) returns (res: Outcome)
      requires Valid()
      modifies this`links
      ensures Valid()
      ensures res == (if id in old(links) then Done else Failed(NotFound))
      ensures links == old(links) - {id}
    {
      if id !in links {
        return Failed(NotFound);
      }
      links := links - {id};
      res := Done;
    }

    method InsertFinalized(id: nat, f: Finalized) returns (res: Outcome)
      requires Valid()
      modifies this`finalized
      ensures Valid()
      ensures res.Done? <==> id !in old(finalized) && (f.source.Some? ==> f.source.value in rfps)
      ensures finalized == if res.Done? then old(finalized)[id := f] else old(finalized)
    {
      if id in finalized {
        return Failed(KeyInUse);
      }
      if f.source.Some? && f.source.value !in rfps {
        return Failed(MissingReference);
      }
      finalized := finalized[id := f];
      res := Done;
    }

    /** Insert a business-cycle assignment. Within one organization a
        business cycle is assigned at most once. */
    method InsertAssignment(id: nat, a: Assignment) returns (res: Outcome)
      requires Valid()
      modifies this`assignments
      ensures Valid()
      ensures id !in old(assignments) && PlacementTaken(old(assignments), a) ==> res == Failed(DuplicatePair)
      ensures res.Done? <==>
                id !in old(assignments) && !PlacementTaken(old(assignments), a) &&
                AssignmentRefsExist(users, rows, a)
      ensures assignments == if res.Done? then old(assignments)[id := a] else old(assignments)
    {
      if id in assignments {
        return Failed(KeyInUse);
      }
      if PlacementTaken(assignments, a) {
        return Failed(DuplicatePair);
      }
      if !AssignmentRefsExist(users, rows, a) {
        return Failed(MissingReference);
      }
      assignments := assignments[id := a];
      res := Done;
    }

    /** Delete the proposals `gone` with what refers to them: their join rows
        go, their finalized versions stay with the source cleared. */
    method DropRfps(gone: set<nat>)
      requires Valid()
      modifies this`rfps, this`links, this`finalized
      ensures Valid()
      ensures rfps == old(rfps) - gone
      ensures links == LinksWithoutRfps(old(links), gone)
      ensures finalized == DetachFinalized(old(finalized), gone)
    {
      CascadeKeepsLinks(links, rfps, rows, gone);
      DetachKeepsFinalizedLinked(finalized, rfps, gone);
      rfps := rfps - gone;
      links := LinksWithoutRfps(links, gone);
      finalized := DetachFinalized(finalized, gone);
    }

    /** Delete a GeneratedRFP. */
    method DeleteRfp(id: nat) returns (res: Outcome)
      requires Valid()
      modifies this`rfps, this`links, this`finalized
      ensures Valid()
      ensures res == (if id in old(rfps) then Done else Failed(NotFound))
      ensures rfps == old(rfps) - {id}
      ensures links == LinksWithoutRfps(old(links), {id})
      ensures finalized == DetachFinalized(old(finalized), {id})
    {
      if id !in rfps {
        return Failed(NotFound);
      }
      DropRfps({id});
      res := Done;
    }

    /** Delete a catalogue row. The delete is refused while a join row
        refers to the row or, for a business cycle, to one of its functional
        areas. Otherwise the row goes, with a business cycle's functional
        areas and assignments and with an industry's proposals. */
    method DeleteRow(key: RowKey) returns (res: Outcome)
      requires Valid()
      modifies this`rows, this`rfps, this`links, this`finalized, this`assignments
      ensures Valid()
      ensures key !in old(rows) ==> res == Failed(NotFound)
      ensures key in old(rows) && Protects(old(links), Doomed(old(rows), key)) ==>
                res == Failed(ReferencedRowProtected)
      ensures res.Done? <==> key in old(rows) && !Protects(old(links), Doomed(old(rows), key))
      ensures res.Failed? ==>
                rows == old(rows) && rfps == old(rfps) && links == old(links) &&
                finalized == old(finalized) && assignments == old(assignments)
      ensures res.Done? ==>
                var gone := RfpsOfIndustry(old(rfps), key);
                && rows == old(rows) - Doomed(old(rows), key)
                && rfps == old(rfps) - gone
                && links == LinksWithoutRfps(old(links), gone)
                && finalized == DetachFinalized(old(finalized), gone)
                && assignments == AssignmentsAfterRowDelete(old(assignments), key)
    {
      if key !in rows {
        return Failed(NotFound);
      }
      var doomed := Doomed(rows, key);
      if Protects(links, doomed) {
        return Failed(ReferencedRowProtected);
      }
      IndustryDeleteKeepsRfps(rfps, rows, users, key);
      DropRfps(RfpsOfIndustry(rfps, key));
      DeleteKeepsTargetsIff(links, rfps, rows, key);
      RowDeleteKeepsAssignments(assignments, users, rows, key);
      RowDeleteKeepsLinks(rows, key, users);
      rows := rows - doomed;
      assignments := AssignmentsAfterRowDelete(assignments, key);
      res := Done;
    }

    /** Delete a user: the proposals they own go (CASCADE) and so do their
        assignments; the catalogue rows they created stay, with the creator
        cleared (SET_NULL). */
    method DeleteUser(u: UserId) returns (res: Outcome)
      requires Valid()
      modifies this`users, this`rows, this`rfps, this`links, this`finalized, this`assignments
      ensures Valid()
      ensures res == (if u in old(users) then Done else Failed(NotFound))
      ensures res.Failed? ==>
                users == old(users) && rows == old(rows) && rfps == old(rfps) && links == old(links) &&
                finalized == old(finalized) && assignments == old(assignments)
      ensures res.Done? ==>
                var gone := set r | r in old(rfps) && old(rfps)[r].owner == u;
                && users == old(users) - {u}
                && rows == ForgetCreator(old(rows), u)
                && rfps == old(rfps) - gone
                && links == LinksWithoutRfps(old(links), gone)
                && finalized == DetachFinalized(old(finalized), gone)
                && assignments == AssignmentsWithoutUser(old(assignments), u)
    {
      if u !in users {
        return Failed(NotFound);
      }
      DropRfps(set r | r in rfps && rfps[r].owner == u);
      UserDeleteKeepsLinks(rows, rfps, assignments, users, u);
      assignments := AssignmentsWithoutUser(assignments, u);
      rows := ForgetCreator(rows, u);
      users := users - {u};
      res := Done;
    }
  }

  /** The assignments left after user `u` is deleted (CASCADE). */
  function AssignmentsWithoutUser(assignments: map<nat, Assignment>, u: UserId): map<nat, Assignment> {
    map a | a in assignments && assignments[a].user != Some(u) :: assignments[a]
  }

  /** Once the proposals of `u` are gone, deleting `u` with its assignments
      and clearing it as creator leaves no reference to `u` behind. */
  lemma UserDeleteKeepsLinks(rows: map<RowKey, Entry>, rfps: map<nat, Rfp>,
                             assignments: map<nat, Assignment>, users: set<UserId>, u: UserId)
    requires RowsLinked(rows, users) && ScopedUnique(rows)
    requires RfpsLinked(rfps, rows, users) && forall r | r in rfps :: rfps[r].owner != u
    requires AssignmentsLinked(assignments, users, rows) && AssignmentsUnique(assignments)
    ensures RowsLinked(ForgetCreator(rows, u), users - {u}) && ScopedUnique(ForgetCreator(rows, u))
    ensures RfpsLinked(rfps, ForgetCreator(rows, u), users - {u})
    ensures AssignmentsLinked(AssignmentsWithoutUser(assignments, u), users - {u}, ForgetCreator(rows, u))
    ensures AssignmentsUnique(AssignmentsWithoutUser(assignments, u))
  {
    var kept := ForgetCreator(rows, u);
    forall k | k in kept ensures RowShape(k, kept[k]) && RowRefsExist(kept, users - {u}, kept[k]) {
      assert RowShape(k, rows[k]) && RowRefsExist(rows, users, rows[k]);
    }
    ForgetCreatorKeepsUnique(rows, u);
  }

  /** Removing the doomed rows of an unprotected delete keeps the areas'
      business cycles in place. */
  lemma RowDeleteKeepsLinks(rows: map<RowKey, Entry>, key: RowKey, users: set<UserId>)
    requires RowsLinked(rows, users)
    ensures RowsLinked(rows - Doomed(rows, key), users)
  {
    var doomed := Doomed(rows, key);
    var rest := rows - doomed;
    forall k | k in rest ensures RowShape(k, rest[k]) && RowRefsExist(rest, users, rest[k]) {
      assert RowRefsExist(rows, users, rows[k]);
      if rest[k].cycle.Some? {
        var c := RowKey(BusinessCycle, rest[k].cycle.value);
        assert c != key;
      }
    }
  }

  /** PROTECT is exactly what keeps the join rows' targets alive: removing
      the doomed rows leaves every join row pointing at an existing row if,
      and only if, no join row refers to one of them. */
  lemma DeleteKeepsTargetsIff(links: map<nat, Link>, rfps: map<nat, Rfp>, rows: map<RowKey, Entry>, key: RowKey)
    requires LinksLinked(links, rfps, rows)
    ensures LinksLinked(links, rfps, rows - Doomed(rows, key)) <==> !Protects(links, Doomed(rows, key))
  {
    var doomed := Doomed(rows, key);
    if Protects(links, doomed) {
      var i :| i in links && LinkTarget(links[i]).Some? && LinkTarget(links[i]).value in doomed;
      assert !LinkRefsExist(rfps, rows - doomed, links[i]);
    }
  }

  /** The cascade from a business cycle to its functional areas takes no more
      than it must: any set of deleted rows that contains `key` and leaves
      every remaining area with its business cycle contains all of `Doomed`. */
  lemma DoomedIsLeast(rows: map<RowKey, Entry>, key: RowKey, users: set<UserId>, deleted: set<RowKey>)
    requires key in deleted
    requires RowsLinked(rows - deleted, users)
    ensures forall k | k in Doomed(rows, key) && k in rows :: k in deleted
  {
    forall k | k in rows - deleted ensures k !in Doomed(rows, key) {
      assert RowRefsExist(rows - deleted, users, (rows - deleted)[k]);
    }
  }

  /** CASCADE from proposals to join rows removes exactly the join rows that
      would otherwise refer to a deleted proposal; the rest keep pointing at
      existing rows and stay unique. */
  lemma CascadeKeepsLinks(links: map<nat, Link>, rfps: map<nat, Rfp>, rows: map<RowKey, Entry>, gone: set<nat>)
    requires LinksLinked(links, rfps, rows) && LinksUnique(links)
    ensures forall i | i in links :: i in LinksWithoutRfps(links, gone) <==> LinkRefsExist(rfps - gone, rows, links[i])
    ensures LinksLinked(LinksWithoutRfps(links, gone), rfps - gone, rows)
    ensures LinksUnique(LinksWithoutRfps(links, gone))
  {
    var kept := LinksWithoutRfps(links, gone);
    forall i | i in links ensures i in kept <==> LinkRefsExist(rfps - gone, rows, links[i]) {
      assert LinkRefsExist(rfps, rows, links[i]);
    }
    forall i, j | i in kept && j in kept && i != j ensures !SamePair(kept[i], kept[j]) {
      assert !SamePair(links[i], links[j]);
    }
  }

  /** SET_NULL from proposals to finalized proposals: afterwards no source
      names a deleted proposal, and a finalized proposal whose source still
      exists is left exactly as it was. */
  lemma DetachKeepsFinalizedLinked(finalized: map<nat, Finalized>, rfps: map<nat, Rfp>, gone: set<nat>)
    requires FinalizedLinked(finalized, rfps)
    ensures FinalizedLinked(DetachFinalized(finalized, gone), rfps - gone)
    ensures forall f | f in finalized && finalized[f].source.Some? && finalized[f].source.value in rfps - gone ::
              DetachFinalized(finalized, gone)[f] == finalized[f]
  {
  }

  /** CASCADE from a deleted business cycle to its assignments removes
      exactly the assignments that would refer to a deleted row; the rest
      stay linked and unique. */
  lemma RowDeleteKeepsAssignments(assignments: map<nat, Assignment>, users: set<UserId>,
                                  rows: map<RowKey, Entry>, key: RowKey)
    requires AssignmentsLinked(assignments, users, rows) && AssignmentsUnique(assignments)
    ensures forall a | a in assignments ::
              a in AssignmentsAfterRowDelete(assignments, key) <==>
              AssignmentRefsExist(users, rows - Doomed(rows, key), assignments[a])
    ensures AssignmentsLinked(AssignmentsAfterRowDelete(assignments, key), users, rows - Doomed(rows, key))
    ensures AssignmentsUnique(AssignmentsAfterRowDelete(assignments, key))
  {
    var kept := AssignmentsAfterRowDelete(assignments, key);
    var doomed := Doomed(rows, key);
    forall a | a in assignments
      ensures a in kept <==> AssignmentRefsExist(users, rows - doomed, assignments[a])
    {
      assert AssignmentRefsExist(users, rows, assignments[a]);
    }
    forall i, j | i in kept && j in kept && i != j ensures !SamePlacement(kept[i], kept[j]) {
      assert !SamePlacement(assignments[i], assignments[j]);
    }
  }

  /** CASCADE from a deleted industry to its proposals removes exactly the
      proposals that would refer to a deleted row; the rest stay linked. */
  lemma IndustryDeleteKeepsRfps(rfps: map<nat, Rfp>, rows: map<RowKey, Entry>, users: set<UserId>, key: RowKey)
    requires RfpsLinked(rfps, rows, users)
    ensures forall r | r in rfps ::
              r !in RfpsOfIndustry(rfps, key) <==> RfpRefsExist(rows - Doomed(rows, key), users, rfps[r])
    ensures RfpsLinked(rfps - RfpsOfIndustry(rfps, key), rows - Doomed(rows, key), users)
  {
    var doomed := Doomed(rows, key);
    forall r | r in rfps
      ensures r !in RfpsOfIndustry(rfps, key) <==> RfpRefsExist(rows - doomed, users, rfps[r])
    {
      assert RfpRefsExist(rows, users, rfps[r]);
    }
  }

  /** Clearing a creator touches neither organizations nor names, so the
      per-tenant uniqueness survives. */
  lemma ForgetCreatorKeepsUnique(rows: map<RowKey, Entry>, u: UserId)
    requires ScopedUnique(rows)
    ensures ScopedUnique(ForgetCreator(rows, u))
  {
    var kept := ForgetCreator(rows, u);
    forall k1, k2 | k1 in kept && k2 in kept && k1 != k2 ensures !Clash(k1, kept[k1], k2, kept[k2]) {
      assert !Clash(k1, rows[k1], k2, rows[k2]);
    }
  }

  /** The name check on insert is exactly what uniqueness needs: the table
      stays unique after adding a row under a fresh key if, and only if, no
      row of the same table and organization has its name. */
  lemma InsertRowUniqueIff(rows: map<RowKey, Entry>, key: RowKey, e: Entry)
    requires ScopedUnique(rows) && key !in rows
    ensures ScopedUnique(rows[key := e]) <==> !NameTaken(rows, key, e)
  {
    var after := rows[key := e];
    if NameTaken(rows, key, e) {
      var k :| k in rows && Clash(k, rows[k], key, e);
      assert k != key && Clash(key, after[key], k, after[k]);
    }
  }

  /** A global row is never refused for its name. */
  lemma GlobalNameNeverTaken(rows: map<RowKey, Entry>, key: RowKey, e: Entry)
    requires e.org == None
    ensures !NameTaken(rows, key, e)
  {
  }

  /** Likewise for the join tables: a join row keeps them unique if, and only
      if, its table has no row with the same proposal and catalogue row. */
  lemma InsertLinkUniqueIff(links: map<nat, Link>, id: nat, l: Link)
    requires LinksUnique(links) && id !in links
    ensures LinksUnique(links[id := l]) <==> !PairTaken(links, l)
  {
    var after := links[id := l];
    if PairTaken(links, l) {
      var i :| i in links && SamePair(links[i], l);
      assert i != id && SamePair(after[i], after[id]);
    }
  }

  /** Likewise for the business-cycle assignments. */
  lemma InsertAssignmentUniqueIff(assignments: map<nat, Assignment>, id: nat, a: Assignment)
    requires AssignmentsUnique(assignments) && id !in assignments
    ensures AssignmentsUnique(assignments[id := a]) <==> !PlacementTaken(assignments, a)
  {
    var after := assignments[id := a];
    if PlacementTaken(assignments, a) {
      var i :| i in assignments && SamePlacement(assignments[i], a);
      assert i != id && SamePlacement(after[i], after[id]);
    }
  }

  // ------------------------------------------------------------------
  //  Scenarios
  // ------------------------------------------------------------------

  /** Two global services may share a name; two services of organization 5
      may not. */
  method SameNameInScopes() returns (first: Outcome, second: Outcome, third: Outcome, fourth: Outcome)
    ensures first == Done && second == Done && third == Done
    ensures fourth == Failed(DuplicateInScope(5, "Audit"))
  {
    var s := new Store();
    first := s.InsertRow(RowKey(Service, 1), Entry(None, "Audit", {}, None, None));
    second := s.InsertRow(RowKey(Service, 2), Entry(None, "Audit", {}, None, None));
    third := s.InsertRow(RowKey(Service, 3), Entry(Some(5), "Audit", {}, None, None));
    assert Clash(RowKey(Service, 3), s.rows[RowKey(Service, 3)], RowKey(Service, 4), Entry(Some(5), "Audit", {}, None, None));
    fourth := s.InsertRow(RowKey(Service, 4), Entry(Some(5), "Audit", {}, None, None));
  }

  /** A store holding user 1, a global industry 1, a service 2 of
      organization 5 created by user 1, and proposal 1 of user 1 on that
      industry. */
  method SeededStore() returns (s: Store)
    ensures fresh(s) && s.Valid()
    ensures s.users == {1}
    ensures s.rows == map[RowKey(Industry, 1) := Entry(None, "Retail", {}, None, None),
                          RowKey(Service, 2) := Entry(Some(5), "Audit", {}, Some(1), None)]
    ensures s.rfps == map[1 := Rfp(Some(5), 1, 1)]
    ensures s.links == map[] && s.finalized == map[] && s.assignments == map[]
  {
    s := new Store();
    var r := s.AddUser(1);
    var industry, service := RowKey(Industry, 1), RowKey(Service, 2);
    r := s.InsertRow(industry, Entry(None, "Retail", {}, None, None));
    assert r == Done && s.rows == map[industry := Entry(None, "Retail", {}, None, None)];
    r := s.InsertRow(service, Entry(Some(5), "Audit", {}, Some(1), None));
    assert r == Done && service in s.rows;
    r := s.InsertRfp(1, Rfp(Some(5), 1, 1));
  }

  /** The seeded store plus business cycle 1 of organization 5. */
  method CycleStore() returns (s: Store)
    ensures fresh(s) && s.Valid()
    ensures s.users == {1} && 1 in s.rfps && s.links == map[]
    ensures s.rows == map[RowKey(Industry, 1) := Entry(None, "Retail", {}, None, None),
                          RowKey(Service, 2) := Entry(Some(5), "Audit", {}, Some(1), None),
                          RowKey(BusinessCycle, 1) := Entry(Some(5), "Procure", {}, Some(1), None)]
  {
    s := SeededStore();
    var r := s.InsertRow(RowKey(BusinessCycle, 1), Entry(Some(5), "Procure", {}, Some(1), None));
    assert r == Done;
  }

  /** The seeded store plus business cycle 1 and its functional area 1, both
      of organization 5, and a join row 1 attaching the area to proposal 1. */
  method LinkedAreaStore() returns (s: Store)
    ensures fresh(s) && s.Valid()
    ensures RowKey(BusinessCycle, 1) in s.rows && RowKey(FunctionalArea, 1) in s.rows
    ensures s.rows[RowKey(FunctionalArea, 1)].cycle == Some(1)
    ensures s.links == map[1 := AreaLink(1, 1, High)]
  {
    s := CycleStore();
    var area := RowKey(FunctionalArea, 1);
    var invoicing := Entry(Some(5), "Invoicing", {}, Some(1), Some(1));
    var r := s.InsertRow(area, invoicing);
    assert r == Done && s.rows[area] == invoicing && s.links == map[];
    r := s.InsertLink(1, AreaLink(1, 1, High));
  }

  /** A functional area used by a proposal can be deleted neither directly
      nor through its business cycle. */
  method LinkedAreaIsProtected() returns (byArea: Outcome, byCycle: Outcome)
    ensures byArea == Failed(ReferencedRowProtected) && byCycle == Failed(ReferencedRowProtected)
  {
    var s := LinkedAreaStore();
    var cycle, area := RowKey(BusinessCycle, 1), RowKey(FunctionalArea, 1);
    assert 1 in s.links && LinkTarget(s.links[1]) == Some(area);
    assert Protects(s.links, Doomed(s.rows, area));
    byArea := s.DeleteRow(area);
    assert area in Doomed(s.rows, cycle);
    assert Protects(s.links, Doomed(s.rows, cycle));
    byCycle := s.DeleteRow(cycle);
  }

  /** Once its join row is deleted, the same functional area can be deleted. */
  method UnlinkedAreaCanBeDeleted() returns (res: Outcome)
    ensures res == Done
  {
    var s := LinkedAreaStore();
    var r := s.DeleteLink(1);
    assert s.links == map[];
    res := s.DeleteRow(RowKey(FunctionalArea, 1));
  }

  /** Deleting a proposal removes its join rows and keeps its finalized
      version with the source cleared; deleting the user who created a
      service keeps the service with no creator. */
  method DeletesKeepWhatTheyShould() returns (s: Store)
    ensures s.links == map[]
    ensures s.finalized == map[1 := Finalized(None, 5)]
    ensures RowKey(Service, 2) in s.rows && s.rows[RowKey(Service, 2)] == Entry(Some(5), "Audit", {}, None, None)
  {
    s := SeededStore();
    var r := s.InsertLink(1, ServiceLink(Some(1), Some(2)));
    assert r == Done;
    r := s.InsertFinalized(1, Finalized(Some(1), 5));
    assert r == Done;
    r := s.DeleteRfp(1);
    assert s.links == map[] && s.finalized == map[1 := Finalized(None, 5)] && s.rfps == map[];
    ghost var rowsBefore := s.rows;
    r := s.DeleteUser(1);
    assert s.rows == ForgetCreator(rowsBefore, 1);
  }
}
