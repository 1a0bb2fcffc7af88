/**
  The broken-status unit test: one standard status, one whose endpoint is
  missing and one whose finding is missing, each listed by its finding and
  its endpoint, then swept.
*/
module SweepExamples {
  import opened Results
  import opened StatusSweep

  const Standard := Status(1, Some(1), Some(1))
  const RemovedEndpoint := Status(2, Some(2), None)
  const RemovedFinding := Status(3, None, Some(2))

  /** Only the standard status is kept; the other two are broken. */
  lemma StatusesSwept()
    ensures KeepStandard([Standard, RemovedEndpoint, RemovedFinding]) == [Standard]
    ensures BrokenIds([Standard, RemovedEndpoint, RemovedFinding]) == {2, 3}
  {
    var all := [Standard, RemovedEndpoint, RemovedFinding];
    assert all[..2] == [Standard, RemovedEndpoint] && all[..2][..1] == [Standard];
    assert KeepStandard([Standard]) == [Standard];
    var ids := BrokenIds(all);
    assert 2 in ids by { assert RemovedEndpoint in all; }
    assert 3 in ids by { assert RemovedFinding in all; }
    forall id | id in ids ensures id in {2, 3} {
      var s :| s in all && IsBroken(s) && s.id == id;
    }
  }

  /** Both sides keep only the membership of the standard status. */
  lemma LinksSwept()
    ensures Unlink([Link(1, 1), Link(2, 2)], {2, 3}) == [Link(1, 1)]
    ensures Unlink([Link(1, 1), Link(2, 3)], {2, 3}) == [Link(1, 1)]
    ensures Members([Link(1, 1)], 1) == [1] && Members([Link(1, 1)], 2) == []
  {
    SecondUnlinked(2);
    SecondUnlinked(3);
    assert [Link(1, 1)][..0] == [];
  }

  /** A standard first link survives and a broken second one goes. */
  lemma SecondUnlinked(broken: nat)
    requires broken in {2, 3}
    ensures Unlink([Link(1, 1), Link(2, broken)], {2, 3}) == [Link(1, 1)]
  {
    var links := [Link(1, 1), Link(2, broken)];
    assert links[..1] == [Link(1, 1)];
    assert [Link(1, 1)][..0] == [];
    assert Unlink([Link(1, 1)], {2, 3}) == [Link(1, 1)];
  }

  /** The tables as the test builds them: two findings, two endpoints, three statuses and four memberships. */
  method Populated() returns (tables: StatusTables)
    ensures fresh(tables) && tables.Valid()
    ensures tables.findings == {1, 2} && tables.endpoints == {1, 2}
    ensures tables.statuses == [Standard, RemovedEndpoint, RemovedFinding]
    ensures tables.findingLinks == [Link(1, 1), Link(2, 2)]
    ensures tables.endpointLinks == [Link(1, 1), Link(2, 3)]
  {
    tables := new StatusTables({1, 2}, {1, 2});
    tables.AddStatus(Standard);
    tables.AddStatus(RemovedEndpoint);
    tables.AddStatus(RemovedFinding);
    tables.LinkFinding(1, Standard);
    tables.LinkFinding(2, RemovedEndpoint);
    tables.LinkEndpoint(1, Standard);
    tables.LinkEndpoint(2, RemovedFinding);
  }

  /**
    After the sweep the standard status is the only one left, the finding
    and the endpoint that list it still list it alone, the other finding
    and endpoint list nothing, and no finding or endpoint is deleted.
  */
  method BrokenStatusSweep() returns (removed: nat, findingMembers: seq<seq<nat>>, endpointMembers: seq<seq<nat>>,
                                      findingsLeft: set<nat>, endpointsLeft: set<nat>)
    ensures removed == 2
    ensures findingMembers == [[1], []] && endpointMembers == [[1], []]
    ensures findingsLeft == {1, 2} && endpointsLeft == {1, 2}
  {
    var tables := Populated();
    StatusesSwept();
    LinksSwept();
    removed := tables.Sweep();
    findingMembers := [Members(tables.findingLinks, 1), Members(tables.findingLinks, 2)];
    endpointMembers := [Members(tables.endpointLinks, 1), Members(tables.endpointLinks, 2)];
    findingsLeft, endpointsLeft := tables.findings, tables.endpoints;
  }
}
