/**
  The decision tables of the planner's unit tests, and three scenarios about
  the delete and apply sets, stated as lemmas about the model.
 */
module SyncTests {
  import opened Cluster
  import opened Sync

  /** A test resource in namespace `ns`, tagged Ignore or not. */
  function Mock(ns: string, ignore: bool): Resource
  {
    Resource(ns, if ignore then {Ignore} else {}, [])
  }

  /** The six resources every non-empty test case stores under ids res1 to res6. */
  function Fixture(): map<string, Resource>
  {
    map["res1" := Mock("ns1", false), "res2" := Mock("ns2", false), "res3" := Mock("ns3", false),
        "res4" := Mock("ns1", false), "res5" := Mock("ns2", false), "res6" := Mock("ns3", false)]
  }

  /** The id of the service s2 in namespace ns1, the resource under test. */
  const S2 := "ns1:service/s2"

  /** The expectations of the delete-decision table, case by case. */
  lemma PrepareSyncDeleteTable()
    ensures DeleteDecision(map[], S2, Mock("ns1", true), map[]) == []
    ensures DeleteDecision(Fixture(), S2, Mock("ns1", true), map[]) == []
    ensures DeleteDecision(Fixture(), S2, Mock("ns1", false), map[]) == [Delete(Mock("ns1", false))]
    ensures DeleteDecision(Fixture(), S2, Mock("ns1", false), map["ns2" := true]) == []
    ensures DeleteDecision(Fixture(), S2, Mock("ns1", false), map["ns1" := true]) == [Delete(Mock("ns1", false))]
  {
  }

  /** The expectations of the apply-decision table, case by case. */
  lemma PrepareSyncApplyTable()
    ensures ApplyDecision(map[], S2, Mock("ns1", true), map[]) == []
    ensures ApplyDecision(Fixture(), S2, Mock("ns1", true), map[]) == []
    ensures ApplyDecision(Fixture(), S2, Mock("ns1", false), map[]) == [Apply(Mock("ns1", false))]
    ensures ApplyDecision(Fixture(), S2, Mock("ns1", false), map["ns2" := true]) == []
    ensures ApplyDecision(Fixture(), S2, Mock("ns1", false), map["ns1" := true]) == [Apply(Mock("ns1", false))]
    // the live copy under the same id is tagged Ignore, the repository copy is not
    ensures ApplyDecision(map[S2 := Mock("ns1", true)], S2, Mock("ns1", false), map[]) == []
  {
  }

  /** An empty cluster and two declared services: both are applied, nothing is deleted. */
  lemma EmptyClusterScenario()
    ensures var repo := map["ns1/svc-a" := Mock("ns1", false), "ns1/svc-b" := Mock("ns1", false)];
            && DeleteKeys(map[], repo, map[]) == {}
            && ApplyKeys(repo, map[], map[]) == {"ns1/svc-a", "ns1/svc-b"}
  {
  }

  /**
    Two live services, one still declared: the other is deleted, and the one
    still declared is applied again (the planner leaves unchanged applies to
    the cluster).
   */
  lemma DeletionScenario()
    ensures var live := map["ns1/svc-a" := Mock("ns1", false), "ns1/svc-b" := Mock("ns1", false)];
            var repo := map["ns1/svc-a" := Mock("ns1", false)];
            && DeleteKeys(live, repo, map[]) == {"ns1/svc-b"}
            && ApplyKeys(repo, live, map[]) == {"ns1/svc-a"}
  {
  }

  /**
    A service declared in ns1 under a whitelist admitting only ns2 is never
    applied, whatever the cluster holds. Deletions stay inside ns2, and every
    live ns2 resource the repository lacks that is not tagged Ignore is
    deleted, since the repository map is not empty.
   */
  lemma WhitelistScenario(live: map<string, Resource>)
    ensures var repo := map["ns1/svc-a" := Mock("ns1", false)];
            && ApplyKeys(repo, live, map["ns2" := true]) == {}
            && (forall id | id in DeleteKeys(live, repo, map["ns2" := true]) :: live[id].namespace == "ns2")
            && (forall id | id in live && id !in repo && live[id].namespace == "ns2" && Ignore !in live[id].policy ::
                  id in DeleteKeys(live, repo, map["ns2" := true]))
  {
  }
}
