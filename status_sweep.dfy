/**
  `remove_broken_endpoint_statuses`: endpoint statuses join a finding and an
  endpoint, and each finding and each endpoint lists its statuses in an
  association collection. A status whose finding or endpoint is missing is
  broken; the sweep deletes every broken status and every membership of it,
  on both sides, and leaves everything else as it was.
*/
module StatusSweep {
  import opened Results

  /** An Endpoint_Status row: its id and the finding and endpoint it refers to, either possibly missing. */
  datatype Status = Status(id: nat, finding: Option<nat>, endpoint: Option<nat>)

  /** A member of an association collection: `owner` (a finding or an endpoint) lists status `status`. */
  datatype Link = Link(owner: nat, status: nat)

  predicate IsBroken(s: Status) {
    s.finding.None? || s.endpoint.None?
  }

  /** The statuses that are not broken, in their order. */
  function KeepStandard(statuses: seq<Status>): (r: seq<Status>)
    ensures |r| <= |statuses|
    ensures forall s :: s in r <==> s in statuses && !IsBroken(s)
  {
    if statuses == [] then []
    else
      var last := statuses[|statuses| - 1];
      KeepStandard(statuses[..|statuses| - 1]) + (if IsBroken(last) then [] else [last])
  }

  /** The ids of the broken statuses. */
  function BrokenIds(statuses: seq<Status>): (ids: set<nat>)
    ensures forall id :: id in ids <==> exists s :: s in statuses && IsBroken(s) && s.id == id
  {
    if statuses == [] then {}
    else
      var last := statuses[|statuses| - 1];
      var init := statuses[..|statuses| - 1];
      assert statuses == init + [last];
      BrokenIds(init) + (if IsBroken(last) then {last.id} else {})
  }

  /** The links whose status is not in `ids`, in their order. */
  function Unlink(links: seq<Link>, ids: set<nat>): (r: seq<Link>)
    ensures |r| <= |links|
    ensures forall l :: l in r <==> l in links && l.status !in ids
  {
    if links == [] then []
    else
      var last := links[|links| - 1];
      Unlink(links[..|links| - 1], ids) + (if last.status in ids then [] else [last])
  }

  /** The association collection of `owner`: the statuses it lists, in order. */
  function Members(links: seq<Link>, owner: nat): seq<nat> {
    if links == [] then []
    else
      var last := links[|links| - 1];
      Members(links[..|links| - 1], owner) + (if last.owner == owner then [last.status] else [])
  }

  /** `members` without the statuses in `ids`, in order. */
  function Without(members: seq<nat>, ids: set<nat>): seq<nat> {
    if members == [] then []
    else
      var last := members[|members| - 1];
      Without(members[..|members| - 1], ids) + (if last in ids then [] else [last])
  }

  /** Unlinking a set of statuses removes exactly them from every owner's collection and keeps the order of the rest. */
  lemma {:induction false} MembersOfUnlink(links: seq<Link>, ids: set<nat>, owner: nat)
    ensures Members(Unlink(links, ids), owner) == Without(Members(links, owner), ids)
  {
    if links != [] {
      var init := links[..|links| - 1];
      var last := links[|links| - 1];
      MembersOfUnlink(init, ids, owner);
      var kept := if last.status in ids then [] else [last];
      MembersAppend(Unlink(init, ids), kept, owner);
      var mine := if last.owner == owner then [last.status] else [];
      WithoutAppend(Members(init, owner), mine, ids);
    }
  }

  /** An owner's collection over two link lists is its collection over each, in order. */
  lemma {:induction false} MembersAppend(a: seq<Link>, b: seq<Link>, owner: nat)
    ensures Members(a + b, owner) == Members(a, owner) + Members(b, owner)
  {
    if b == [] {
      assert a + b == a;
    } else {
      var init, last := b[..|b| - 1], b[|b| - 1];
      MembersAppend(a, init, owner);
      assert (a + b)[..|a + b| - 1] == a + init;
      assert (a + b)[|a + b| - 1] == last;
    }
  }

  /** Removing statuses from two collections in a row is removing them from each. */
  lemma {:induction false} WithoutAppend(a: seq<nat>, b: seq<nat>, ids: set<nat>)
    ensures Without(a + b, ids) == Without(a, ids) + Without(b, ids)
  {
    if b == [] {
      assert a + b == a;
    } else {
      var init, last := b[..|b| - 1], b[|b| - 1];
      WithoutAppend(a, init, ids);
      assert (a + b)[..|a + b| - 1] == a + init;
      assert (a + b)[|a + b| - 1] == last;
    }
  }

  /** `Without` keeps exactly the members outside `ids`. */
  lemma {:induction false} WithoutKeeps(members: seq<nat>, ids: set<nat>)
    ensures forall x :: x in Without(members, ids) <==> x in members && x !in ids
  {
    if members != [] {
      var init, last := members[..|members| - 1], members[|members| - 1];
      WithoutKeeps(init, ids);
      assert members == init + [last];
    }
  }

  /** A collection that lists no broken status is left as it is. */
  lemma {:induction false} WithoutNothing(members: seq<nat>, ids: set<nat>)
    requires forall i :: 0 <= i < |members| ==> members[i] !in ids
    ensures Without(members, ids) == members
  {
    if members != [] {
      var init := members[..|members| - 1];
      WithoutNothing(init, ids);
      assert init + [members[|members| - 1]] == members;
    }
  }

  /** No two statuses share an id. */
  predicate UniqueIds(statuses: seq<Status>) {
    forall i, j :: 0 <= i < j < |statuses| ==> statuses[i].id != statuses[j].id
  }

  /** With unique ids, a standard status is never among the broken ids, so its memberships survive. */
  lemma StandardNotBroken(statuses: seq<Status>, i: nat)
    requires UniqueIds(statuses) && i < |statuses| && !IsBroken(statuses[i])
    ensures statuses[i].id !in BrokenIds(statuses)
  {
    forall s | s in statuses && IsBroken(s) ensures s.id != statuses[i].id {
      var k :| 0 <= k < |statuses| && statuses[k] == s;
      assert k != i;
    }
  }

  /** Sweeping what a sweep left finds nothing broken. */
  lemma SweepIsIdempotent(statuses: seq<Status>, links: seq<Link>)
    ensures KeepStandard(KeepStandard(statuses)) == KeepStandard(statuses)
    ensures BrokenIds(KeepStandard(statuses)) == {}
    ensures Unlink(links, {}) == links
  {
    KeepStandardOfStandard(KeepStandard(statuses));
    UnlinkNothing(links);
  }

  lemma {:induction false} KeepStandardOfStandard(statuses: seq<Status>)
    requires forall s :: s in statuses ==> !IsBroken(s)
    ensures KeepStandard(statuses) == statuses
  {
    if statuses != [] {
      var init, last := statuses[..|statuses| - 1], statuses[|statuses| - 1];
      assert statuses == init + [last];
      assert forall s :: s in init ==> s in statuses;
      KeepStandardOfStandard(init);
      assert !IsBroken(last);
    }
  }

  lemma {:induction false} UnlinkNothing(links: seq<Link>)
    ensures Unlink(links, {}) == links
  {
    if links != [] {
      var init := links[..|links| - 1];
      UnlinkNothing(init);
      assert init + [links[|links| - 1]] == links;
    }
  }

  /**
    The status table and both sides' association collections, plus the
    findings and endpoints that exist.
  */
  class StatusTables {
    var findings: set<nat>
    var endpoints: set<nat>
    var statuses: seq<Status>
    var findingLinks: seq<Link>
    var endpointLinks: seq<Link>

    /** No two statuses share an id, and every membership names an existing owner and an existing status. */
    ghost predicate Valid()
      reads this
    {
      && UniqueIds(statuses)
      && LinksValid(findingLinks, findings, statuses)
      && LinksValid(endpointLinks, endpoints, statuses)
    }

    constructor (findings: set<nat>, endpoints: set<nat>)
      ensures this.findings == findings && this.endpoints == endpoints
      ensures statuses == [] && findingLinks == [] && endpointLinks == []
      ensures Valid()
    {
      this.findings := findings;
      this.endpoints := endpoints;
      statuses := [];
      findingLinks := [];
      endpointLinks := [];
    }

    /** Records a status (`Endpoint_Status.objects.create`). */
    method AddStatus(s: Status)
      requires Valid()
      requires forall t :: t in statuses ==> t.id != s.id  // a fresh primary key
      modifies this`statuses
      ensures statuses == old(statuses) + [s]
      ensures Valid()
    {
      AddStatusKeepsLinks(findingLinks, findings, statuses, s);
      AddStatusKeepsLinks(endpointLinks, endpoints, statuses, s);
      AddStatusKeepsUniqueIds(statuses, s);
      statuses := statuses + [s];
    }

    /** Adds status `s` to the collection of finding `f` (`finding.endpoint_status.add`). */
    method LinkFinding(f: nat, s: Status)
      requires Valid() && f in findings && s in statuses
      modifies this`findingLinks
      ensures findingLinks == old(findingLinks) + [Link(f, s.id)]
      ensures Valid()
    {
      findingLinks := findingLinks + [Link(f, s.id)];
    }

    /** Adds status `s` to the collection of endpoint `e` (`endpoint.endpoint_status.add`). */
    method LinkEndpoint(e: nat, s: Status)
      requires Valid() && e in endpoints && s in statuses
      modifies this`endpointLinks
      ensures endpointLinks == old(endpointLinks) + [Link(e, s.id)]
      ensures Valid()
    {
      endpointLinks := endpointLinks + [Link(e, s.id)];
    }

    /**
      `remove_broken_endpoint_statuses`: deletes every broken status and
      its memberships on both sides, and reports how many statuses it
      deleted. Findings and endpoints themselves are never deleted.
    */
    method Sweep() returns (removed: nat)
      requires Valid()
      modifies this`statuses, this`findingLinks, this`endpointLinks
      ensures statuses == KeepStandard(old(statuses))
      ensures findingLinks == Unlink(old(findingLinks), BrokenIds(old(statuses)))
      ensures endpointLinks == Unlink(old(endpointLinks), BrokenIds(old(statuses)))
      ensures removed == |old(statuses)| - |statuses|
      ensures Valid()
      ensures forall s :: s in statuses ==> s.id !in BrokenIds(old(statuses))
      ensures forall o :: Members(findingLinks, o) == Without(Members(old(findingLinks), o), BrokenIds(old(statuses)))
      ensures forall o :: Members(endpointLinks, o) == Without(Members(old(endpointLinks), o), BrokenIds(old(statuses)))
    {
      var all, f0, e0 := statuses, findingLinks, endpointLinks;
      var kept, broken := Partition(all);
      var fl := Unlinked(f0, broken);
      var el := Unlinked(e0, broken);
      removed := |all| - |kept|;
      SweepKeepsLinks(f0, findings, all);
      SweepKeepsLinks(e0, endpoints, all);
      SweepKeepsStandard(all);
      UnlinkMembers(f0, broken);
      UnlinkMembers(e0, broken);
      statuses, findingLinks, endpointLinks := kept, fl, el;
    }
  }

  /** A status with a fresh id keeps the ids unique. */
  lemma AddStatusKeepsUniqueIds(statuses: seq<Status>, s: Status)
    requires UniqueIds(statuses) && forall t :: t in statuses ==> t.id != s.id
    ensures UniqueIds(statuses + [s])
  {
    var all := statuses + [s];
    forall i, j | 0 <= i < j < |all| ensures all[i].id != all[j].id {
      if j == |statuses| {
        assert all[i] in statuses;
      } else {
        assert all[i] == statuses[i] && all[j] == statuses[j];
      }
    }
  }

  /** The kept statuses still have unique ids, and none of them has a broken id. */
  lemma SweepKeepsStandard(statuses: seq<Status>)
    requires UniqueIds(statuses)
    ensures UniqueIds(KeepStandard(statuses))
    ensures forall s :: s in KeepStandard(statuses) ==> s.id !in BrokenIds(statuses)
  {
    KeepStandardKeepsUniqueIds(statuses);
    forall s | s in KeepStandard(statuses) ensures s.id !in BrokenIds(statuses) {
      var i :| 0 <= i < |statuses| && statuses[i] == s;
      StandardNotBroken(statuses, i);
    }
  }

  lemma {:induction false} KeepStandardKeepsUniqueIds(statuses: seq<Status>)
    requires UniqueIds(statuses)
    ensures UniqueIds(KeepStandard(statuses))
  {
    if statuses != [] {
      var init, last := statuses[..|statuses| - 1], statuses[|statuses| - 1];
      assert UniqueIds(init) by {
        forall i, j | 0 <= i < j < |init| ensures init[i].id != init[j].id {
          assert init[i] == statuses[i] && init[j] == statuses[j];
        }
      }
      KeepStandardKeepsUniqueIds(init);
      var k := KeepStandard(init);
      if !IsBroken(last) {
        forall t | t in k ensures t.id != last.id {
          var m :| 0 <= m < |init| && init[m] == t;
          assert statuses[m] == t;
        }
        var r := k + [last];
        forall i, j | 0 <= i < j < |r| ensures r[i].id != r[j].id {
          if j == |k| {
            assert r[i] in k;
          } else {
            assert r[i] == k[i] && r[j] == k[j];
          }
        }
      }
    }
  }

  /** Unlinking acts on every owner's collection as `Without`. */
  lemma UnlinkMembers(links: seq<Link>, ids: set<nat>)
    ensures forall o :: Members(Unlink(links, ids), o) == Without(Members(links, o), ids)
  {
    forall o ensures Members(Unlink(links, ids), o) == Without(Members(links, o), ids) {
      MembersOfUnlink(links, ids, o);
    }
  }

  /** Every link names one of `owners` and the id of one of `statuses`. */
  ghost predicate LinksValid(links: seq<Link>, owners: set<nat>, statuses: seq<Status>) {
    forall l :: l in links ==> l.owner in owners && exists s :: s in statuses && s.id == l.status
  }

  lemma AddStatusKeepsLinks(links: seq<Link>, owners: set<nat>, statuses: seq<Status>, s: Status)
    requires LinksValid(links, owners, statuses)
    ensures LinksValid(links, owners, statuses + [s])
  {
    forall l | l in links ensures exists t :: t in statuses + [s] && t.id == l.status {
      var t :| t in statuses && t.id == l.status;
      assert t in statuses + [s];
    }
  }

  /** After a sweep every surviving link still names an owner and a surviving status. */
  lemma SweepKeepsLinks(links: seq<Link>, owners: set<nat>, statuses: seq<Status>)
    requires LinksValid(links, owners, statuses)
    ensures LinksValid(Unlink(links, BrokenIds(statuses)), owners, KeepStandard(statuses))
  {
    forall l | l in Unlink(links, BrokenIds(statuses))
      ensures exists s :: s in KeepStandard(statuses) && s.id == l.status
    {
      SurvivingLinkKeepsStatus(statuses, l.status);
    }
  }

  /** A link that survives refers to a status that survives. */
  lemma SurvivingLinkKeepsStatus(statuses: seq<Status>, id: nat)
    requires (exists s :: s in statuses && s.id == id) && id !in BrokenIds(statuses)
    ensures exists s :: s in KeepStandard(statuses) && s.id == id
  {
    var s :| s in statuses && s.id == id;
    assert !IsBroken(s);
  }

  /** One pass over the statuses: the standard ones in order and the ids of the broken ones. */
  method Partition(statuses: seq<Status>) returns (kept: seq<Status>, broken: set<nat>)
    ensures kept == KeepStandard(statuses) && broken == BrokenIds(statuses)
  {
    kept, broken := [], {};
    var i := 0;
    while i < |statuses|
      invariant 0 <= i <= |statuses|
      invariant kept == KeepStandard(statuses[..i]) && broken == BrokenIds(statuses[..i])
    {
      var s := statuses[i];
      assert statuses[..i + 1][..i] == statuses[..i];
      if IsBroken(s) {
        broken := broken + {s.id};
      } else {
        kept := kept + [s];
      }
      i := i + 1;
    }
    assert statuses[..i] == statuses;
  }

  /** One pass over a collection, dropping the memberships of the given statuses. */
  method Unlinked(links: seq<Link>, ids: set<nat>) returns (r: seq<Link>)
    ensures r == Unlink(links, ids)
  {
    r := [];
    var i := 0;
    while i < |links|
      invariant 0 <= i <= |links|
      invariant r == Unlink(links[..i], ids)
    {
      assert links[..i + 1][..i] == links[..i];
      if links[i].status !in ids {
        r := r + [links[i]];
      }
      i := i + 1;
    }
    assert links[..i] == links;
  }
}
