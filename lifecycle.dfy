/** The bucket lifecycle tasks: `check` that every configured bucket exists,
    `deploy` every configured bucket as a public website, `teardown` every
    configured bucket. Each task visits the configured buckets in order and
    stops at the first request that fails. */
module Lifecycle {
  import opened Storage

  /** One configured bucket: its name and at most one of the two hosting
      modes (a website configuration wins over a redirect when both are set). */
  datatype BucketConfig = BucketConfig(name: string, website: Option<Website>, redirect: Option<Redirect>)

  datatype Config = Config(buckets: seq<BucketConfig>)

  /** How long `deploy` waits for a bucket it has just created, in milliseconds. */
  const StabilizeMs: nat := 30000

  const ArnPrefix := "arn:aws:s3:::"

  /** The bucket policy that lets anyone read every object of bucket `name`. */
  function PublicReadPolicy(name: string): Policy
  {
    Policy("2012-10-17", [Statement("Web Site Access", "Allow", "*", "s3:GetObject", ArnPrefix + name + "/*")])
  }

  /** The policy grants access to its own bucket and to no other. */
  lemma PolicyNamesItsBucket(a: string, b: string)
    ensures PublicReadPolicy(a) == PublicReadPolicy(b) <==> a == b
  {
    if PublicReadPolicy(a) == PublicReadPolicy(b) {
      var ra, rb := ArnPrefix + a + "/*", ArnPrefix + b + "/*";
      assert ra == PublicReadPolicy(a).statements[0].resource;
      assert rb == PublicReadPolicy(b).statements[0].resource;
      assert a == ra[|ArnPrefix|..|ra| - 2];
      assert b == rb[|ArnPrefix|..|rb| - 2];
    }
  }

  function Names(bs: seq<BucketConfig>): set<string>
  {
    set i | 0 <= i < |bs| :: bs[i].name
  }

  /** Every bucket whose name is not in `names` is as it was: it exists in
      `after` exactly when it existed in `before`, with the same state. */
  ghost predicate KeptOutside(before: Cloud, after: Cloud, names: set<string>)
  {
    forall m | m !in names :: (m in after <==> m in before) && (m in before ==> after[m] == before[m])
  }

  /** `c` can only change bucket `n`. */
  predicate Touches(c: Call, n: string)
  {
    c.Sleep? || c.bucket == n
  }

  lemma StepKeepsOthers(svc: Service, cloud: Cloud, c: Call, n: string)
    requires Touches(c, n)
    ensures KeptOutside(cloud, Step(svc, cloud, c).cloud, {n})
  {
    if !Rejects(svc, cloud, c) {
      var after := Effect(svc, cloud, c);
      assert after == cloud || (n in after && after == cloud[n := after[n]]) || after == cloud - {n};
    }
  }

  lemma {:induction false} ExecKeepsOthers(svc: Service, cloud: Cloud, calls: seq<Call>, n: string)
    requires forall i | 0 <= i < |calls| :: Touches(calls[i], n)
    ensures KeptOutside(cloud, Exec(svc, cloud, calls).cloud, {n})
    decreases |calls|
  {
    if calls != [] {
      ExecCons(svc, cloud, calls);
      var s := Step(svc, cloud, calls[0]);
      StepKeepsOthers(svc, cloud, calls[0], n);
      if s.outcome.Pass? {
        ExecKeepsOthers(svc, s.cloud, calls[1..], n);
        KeptTrans(cloud, s.cloud, Exec(svc, s.cloud, calls[1..]).cloud, {n}, {n});
      }
    }
  }

  lemma KeptTrans(a: Cloud, b: Cloud, c: Cloud, m: set<string>, n: set<string>)
    requires KeptOutside(a, b, m) && KeptOutside(b, c, n)
    ensures KeptOutside(a, c, m + n)
  {
  }

  lemma KeptWider(a: Cloud, b: Cloud, m: set<string>, n: set<string>)
    requires KeptOutside(a, b, m) && m <= n
    ensures KeptOutside(a, b, n)
  {
  }

  // ----- check -----

  /** The bucket exists and the service answers the question about it. */
  predicate Ready(svc: Service, cloud: Cloud, name: string)
  {
    Call.HasBucket(name) !in svc.faults && name in cloud
  }

  /** Lines 5-11: asks whether the bucket exists; a missing one is a
      configuration error. */
  function CheckOne(svc: Service, cloud: Cloud, b: BucketConfig): (r: Run)
  {
    var s := Step(svc, cloud, Call.HasBucket(b.name));
    if s.outcome.Pass? && b.name !in cloud then Run(cloud, s.issued, Fail(NotConfigured(b.name))) else s
  }

  /** Lines 13-17: the buckets in order, stopping at the first that is not ready. */
  function CheckAll(svc: Service, cloud: Cloud, bs: seq<BucketConfig>): Run
    decreases |bs|
  {
    if bs == [] then Run(cloud, [], Pass)
    else
      var r := CheckOne(svc, cloud, bs[0]);
      if r.outcome.Fail? then r else Follow(r.issued, CheckAll(svc, cloud, bs[1..]))
  }

  /** `check` changes nothing and asks, in configuration order, only whether
      the buckets exist; all of them when it succeeds. */
  lemma {:induction false} CheckRequests(svc: Service, cloud: Cloud, bs: seq<BucketConfig>)
    ensures var r := CheckAll(svc, cloud, bs);
      && r.cloud == cloud
      && |r.issued| <= |bs| && (forall j | 0 <= j < |r.issued| :: r.issued[j] == Call.HasBucket(bs[j].name))
      && (r.outcome.Pass? ==> |r.issued| == |bs|)
      && (r.outcome.Fail? ==> r.issued != [])
    decreases |bs|
  {
    if bs != [] {
      var r := CheckOne(svc, cloud, bs[0]);
      if r.outcome.Pass? {
        CheckRequests(svc, cloud, bs[1..]);
        var rest := CheckAll(svc, cloud, bs[1..]);
        forall j | 1 <= j < 1 + |rest.issued| ensures ([Call.HasBucket(bs[0].name)] + rest.issued)[j] == Call.HasBucket(bs[j].name) {
          assert bs[1..][j - 1] == bs[j];
        }
      }
    }
  }

  /** `check` succeeds exactly when every bucket is ready. */
  lemma {:induction false} CheckPasses(svc: Service, cloud: Cloud, bs: seq<BucketConfig>)
    ensures CheckAll(svc, cloud, bs).outcome.Pass? <==> forall j | 0 <= j < |bs| :: Ready(svc, cloud, bs[j].name)
    decreases |bs|
  {
    if bs != [] {
      var r := CheckOne(svc, cloud, bs[0]);
      if r.outcome.Pass? {
        CheckPasses(svc, cloud, bs[1..]);
        assert forall j | 1 <= j < |bs| :: bs[1..][j - 1] == bs[j];
      }
    }
  }

  /** A failed `check` stops at the first bucket that is not ready, with
      that bucket's error. */
  lemma {:induction false} CheckStops(svc: Service, cloud: Cloud, bs: seq<BucketConfig>)
    ensures var r := CheckAll(svc, cloud, bs);
      r.outcome.Fail? ==>
        var k := |r.issued| - 1;
        && 0 <= k < |bs|
        && (forall j | 0 <= j < k :: Ready(svc, cloud, bs[j].name))
        && !Ready(svc, cloud, bs[k].name)
        && r.outcome.error == (if Call.HasBucket(bs[k].name) in svc.faults then Remote(Call.HasBucket(bs[k].name)) else NotConfigured(bs[k].name))
    decreases |bs|
  {
    if bs != [] {
      var r := CheckOne(svc, cloud, bs[0]);
      if r.outcome.Pass? {
        CheckStops(svc, cloud, bs[1..]);
        assert forall j | 1 <= j < |bs| :: bs[1..][j - 1] == bs[j];
      }
    }
  }

  /** `check` changes nothing and asks about the buckets in configuration
      order; it succeeds exactly when every bucket is ready, and otherwise
      stops at the first bucket that is not, with that bucket's error. */
  lemma CheckVerdict(svc: Service, cloud: Cloud, bs: seq<BucketConfig>)
    ensures var r := CheckAll(svc, cloud, bs);
      && r.cloud == cloud
      && |r.issued| <= |bs| && (forall j | 0 <= j < |r.issued| :: r.issued[j] == Call.HasBucket(bs[j].name))
      && (r.outcome.Pass? <==> forall j | 0 <= j < |bs| :: Ready(svc, cloud, bs[j].name))
      && (r.outcome.Pass? ==> |r.issued| == |bs|)
      && (r.outcome.Fail? ==>
        var k := |r.issued| - 1;
        && 0 <= k
        && (forall j | 0 <= j < k :: Ready(svc, cloud, bs[j].name))
        && !Ready(svc, cloud, bs[k].name)
        && r.outcome.error == (if Call.HasBucket(bs[k].name) in svc.faults then Remote(Call.HasBucket(bs[k].name)) else NotConfigured(bs[k].name)))
  {
    CheckRequests(svc, cloud, bs);
    CheckPasses(svc, cloud, bs);
    CheckStops(svc, cloud, bs);
  }

  // ----- deploy -----

  /** Lines 21-26: creating a bucket, then waiting for it, only when it is missing. */
  function Creation(n: string, found: bool): seq<Call>
  {
    if found then [] else [Call.PutBucket(n), Sleep(StabilizeMs)]
  }

  /** Lines 31-41: lifting the public-access block, then the read policy. */
  function Publication(n: string): seq<Call>
  {
    [RemoveBlocks(n), PutBucketPolicy(n, PublicReadPolicy(n))]
  }

  /** Lines 43-47: the hosting request, if the bucket asks for one. */
  function HostingCalls(b: BucketConfig): seq<Call>
  {
    if b.website.Some? then [PutBucketWebsite(b.name, b.website.value)]
    else if b.redirect.Some? then [PutBucketRedirect(b.name, b.redirect.value)]
    else []
  }

  /** Lines 20-47: the requests `deployBucket` issues, given whether the bucket exists. */
  function DeployPlan(b: BucketConfig, found: bool): seq<Call>
  {
    [Call.HasBucket(b.name)] + (Creation(b.name, found) + (Publication(b.name) + HostingCalls(b)))
  }

  lemma PlanTouches(b: BucketConfig, found: bool)
    ensures forall i | 0 <= i < |DeployPlan(b, found)| :: Touches(DeployPlan(b, found)[i], b.name)
  {
    var plan := DeployPlan(b, found);
    var tail := Creation(b.name, found) + (Publication(b.name) + HostingCalls(b));
    forall i | 0 <= i < |plan| ensures Touches(plan[i], b.name) {
      if i > 0 {
        assert plan[i] == tail[i - 1];
      }
    }
  }

  lemma PlanFront(b: BucketConfig, found: bool)
    ensures var plan := DeployPlan(b, found);
      && |plan| >= 3 && plan[0] == Call.HasBucket(b.name) && Call.HasBucket(b.name) !in plan[1..]
      && (Call.PutBucket(b.name) in plan <==> !found) && (Sleep(StabilizeMs) in plan <==> !found)
      && (!found ==> plan[1] == Call.PutBucket(b.name) && plan[2] == Sleep(StabilizeMs))
  {
    var n := b.name;
    var plan := DeployPlan(b, found);
    var rest := Publication(n) + HostingCalls(b);
    assert plan[1..] == Creation(n, found) + rest;
    assert forall i | 0 <= i < |rest| :: rest[i].RemoveBlocks? || rest[i].PutBucketPolicy? || rest[i].PutBucketWebsite? || rest[i].PutBucketRedirect?;
    assert Call.HasBucket(n) !in rest && Call.PutBucket(n) !in rest && Sleep(StabilizeMs) !in rest;
  }

  lemma PlanMiddle(b: BucketConfig, found: bool)
    ensures var plan := DeployPlan(b, found); var k := if found then 1 else 3;
      && |plan| == k + 2 + (if b.website.Some? || b.redirect.Some? then 1 else 0)
      && plan[k] == RemoveBlocks(b.name) && plan[k + 1] == PutBucketPolicy(b.name, PublicReadPolicy(b.name))
  {
    var n := b.name;
    var k := if found then 1 else 3;
    var front := [Call.HasBucket(n)] + Creation(n, found);
    assert |front| == k;
    assert DeployPlan(b, found) == front + (Publication(n) + HostingCalls(b));
  }

  lemma PlanEnd(b: BucketConfig, found: bool)
    ensures var plan := DeployPlan(b, found);
      && (forall i | 0 <= i < |plan| && plan[i].PutBucketRedirect? :: b.website.None?)
      && (b.website.Some? ==> plan[|plan| - 1] == PutBucketWebsite(b.name, b.website.value))
      && (b.website.None? && b.redirect.Some? ==> plan[|plan| - 1] == PutBucketRedirect(b.name, b.redirect.value))
      && (b.website.None? && b.redirect.None? ==>
            forall i | 0 <= i < |plan| :: !plan[i].PutBucketWebsite? && !plan[i].PutBucketRedirect?)
  {
    var n := b.name;
    var front := [Call.HasBucket(n)] + Creation(n, found) + Publication(n);
    var plan := DeployPlan(b, found);
    assert plan == front + HostingCalls(b);
    assert forall i | 0 <= i < |front| :: !front[i].PutBucketRedirect? && !front[i].PutBucketWebsite?;
    forall i | 0 <= i < |plan| && plan[i].PutBucketRedirect? ensures b.website.None? {
      if i < |front| {
        assert plan[i] == front[i];
      }
    }
  }

  /** The plan asks about the bucket first and only then; creates it and
      waits only when it is missing; always lifts the block before setting
      the policy; and ends with the website configuration when there is one,
      the redirect only when there is no website, and neither when the
      bucket asks for neither. Every request is about the deployed bucket. */
  lemma DeployPlanShape(b: BucketConfig, found: bool)
    ensures var plan := DeployPlan(b, found);
      && |plan| >= 3 && plan[0] == Call.HasBucket(b.name) && Call.HasBucket(b.name) !in plan[1..]
      && (forall i | 0 <= i < |plan| :: Touches(plan[i], b.name))
      && (Call.PutBucket(b.name) in plan <==> !found) && (Sleep(StabilizeMs) in plan <==> !found)
      && (!found ==> plan[1] == Call.PutBucket(b.name) && plan[2] == Sleep(StabilizeMs))
      && (var k := if found then 1 else 3;
          && |plan| == k + 2 + (if b.website.Some? || b.redirect.Some? then 1 else 0)
          && plan[k] == RemoveBlocks(b.name) && plan[k + 1] == PutBucketPolicy(b.name, PublicReadPolicy(b.name)))
      && (forall i | 0 <= i < |plan| && plan[i].PutBucketRedirect? :: b.website.None?)
      && (b.website.Some? ==> plan[|plan| - 1] == PutBucketWebsite(b.name, b.website.value))
      && (b.website.None? && b.redirect.Some? ==> plan[|plan| - 1] == PutBucketRedirect(b.name, b.redirect.value))
      && (b.website.None? && b.redirect.None? ==>
            forall i | 0 <= i < |plan| :: !plan[i].PutBucketWebsite? && !plan[i].PutBucketRedirect?)
  {
    PlanTouches(b, found);
    PlanFront(b, found);
    PlanMiddle(b, found);
    PlanEnd(b, found);
  }

  /** What `deployBucket` does to the service. */
  function DeployOne(svc: Service, cloud: Cloud, b: BucketConfig): Run
  {
    Exec(svc, cloud, DeployPlan(b, b.name in cloud))
  }

  /** The hosting mode a deployed bucket ends with. */
  function HostingAfter(b: BucketConfig, before: Hosting): Hosting
  {
    if b.website.Some? then Site(b.website.value)
    else if b.redirect.Some? then RedirectAll(b.redirect.value)
    else before
  }

  /** Reference definition: the state of bucket `b.name` after a deploy
      that succeeds, from its state before (a new bucket when it was missing). */
  function Deployed(b: BucketConfig, before: BucketState): BucketState
  {
    before.(blocked := false, policy := Some(PublicReadPolicy(b.name)), hosting := HostingAfter(b, before.hosting))
  }

  function StateOrNew(cloud: Cloud, n: string): BucketState
  {
    if n in cloud then cloud[n] else NewBucket
  }

  /** The bucket is publicly readable. */
  predicate Public(cloud: Cloud, n: string)
  {
    n in cloud && !cloud[n].blocked && cloud[n].policy == Some(PublicReadPolicy(n))
  }

  lemma ProbeAndCreate(svc: Service, cloud: Cloud, n: string)
    ensures var r := Exec(svc, cloud, [Call.HasBucket(n)] + Creation(n, n in cloud));
      r.outcome.Pass? ==> n in r.cloud && r.cloud[n] == StateOrNew(cloud, n)
  {
    ExecAppend(svc, cloud, [Call.HasBucket(n)], Creation(n, n in cloud));
    ExecOne(svc, cloud, Call.HasBucket(n));
    ExecTwo(svc, cloud, Call.PutBucket(n), Sleep(StabilizeMs));
  }

  lemma Publish(svc: Service, cloud: Cloud, n: string)
    ensures var r := Exec(svc, cloud, Publication(n));
      r.outcome.Pass? ==> n in cloud && n in r.cloud && r.cloud[n] == cloud[n].(blocked := false, policy := Some(PublicReadPolicy(n)))
  {
    ExecTwo(svc, cloud, RemoveBlocks(n), PutBucketPolicy(n, PublicReadPolicy(n)));
  }

  lemma Host(svc: Service, cloud: Cloud, b: BucketConfig)
    requires b.name in cloud
    ensures var r := Exec(svc, cloud, HostingCalls(b));
      r.outcome.Pass? ==> b.name in r.cloud && r.cloud[b.name] == cloud[b.name].(hosting := HostingAfter(b, cloud[b.name].hosting))
  {
  }

  /** Lines 20-47: deploying leaves every other bucket as it was; when it
      succeeds the bucket exists, is public, keeps its objects and has the
      configured hosting mode. */
  lemma DeployEffect(svc: Service, cloud: Cloud, b: BucketConfig)
    ensures var r := DeployOne(svc, cloud, b);
      && KeptOutside(cloud, r.cloud, {b.name})
      && (r.outcome.Pass? ==> b.name in r.cloud && r.cloud[b.name] == Deployed(b, StateOrNew(cloud, b.name)))
  {
    var n := b.name;
    var found := n in cloud;
    var a, p, h := [Call.HasBucket(n)] + Creation(n, found), Publication(n), HostingCalls(b);
    DeployPlanShape(b, found);
    ExecKeepsOthers(svc, cloud, DeployPlan(b, found), n);
    ConcatAssoc([Call.HasBucket(n)], Creation(n, found), p + h);
    ConcatAssoc(a, p, h);
    ExecAppend(svc, cloud, a + p, h);
    ExecAppend(svc, cloud, a, p);
    var ra := Exec(svc, cloud, a);
    ProbeAndCreate(svc, cloud, n);
    if ra.outcome.Pass? {
      var rp := Exec(svc, ra.cloud, p);
      Publish(svc, ra.cloud, n);
      if rp.outcome.Pass? {
        Host(svc, rp.cloud, b);
      }
    }
  }

  /** Lines 51-55: the buckets in order, stopping at the first that fails. */
  function DeployAll(svc: Service, cloud: Cloud, bs: seq<BucketConfig>): (r: Run)
    decreases |bs|
  {
    if bs == [] then Run(cloud, [], Pass)
    else
      var r := DeployOne(svc, cloud, bs[0]);
      if r.outcome.Fail? then r else Follow(r.issued, DeployAll(svc, r.cloud, bs[1..]))
  }

  /** The requests of a whole deploy, each bucket's plan made for whether it
      exists by then: it existed at the start or an earlier entry created it. */
  function DeployCalls(existing: set<string>, bs: seq<BucketConfig>): seq<Call>
    decreases |bs|
  {
    if bs == [] then []
    else DeployPlan(bs[0], bs[0].name in existing) + DeployCalls(existing + {bs[0].name}, bs[1..])
  }

  /** `deploy` issues the buckets' plans in configuration order and stops at
      the first rejected request. */
  lemma {:induction false} DeployAllIsExec(svc: Service, cloud: Cloud, bs: seq<BucketConfig>)
    ensures DeployAll(svc, cloud, bs) == Exec(svc, cloud, DeployCalls(cloud.Keys, bs))
    decreases |bs|
  {
    if bs != [] {
      var plan := DeployPlan(bs[0], bs[0].name in cloud);
      ExecAppend(svc, cloud, plan, DeployCalls(cloud.Keys + {bs[0].name}, bs[1..]));
      var r := DeployOne(svc, cloud, bs[0]);
      if r.outcome.Pass? {
        DeployEffect(svc, cloud, bs[0]);
        assert r.cloud.Keys == cloud.Keys + {bs[0].name};
        DeployAllIsExec(svc, r.cloud, bs[1..]);
      }
    }
  }

  lemma NamesCons(bs: seq<BucketConfig>)
    requires bs != []
    ensures Names(bs) == {bs[0].name} + Names(bs[1..])
  {
    assert forall i | 1 <= i < |bs| :: bs[1..][i - 1] == bs[i];
    assert forall i | 0 <= i < |bs[1..]| :: bs[1..][i] == bs[i + 1];
  }

  lemma PublicKept(before: Cloud, after: Cloud, names: set<string>, n: string)
    requires KeptOutside(before, after, names) && n !in names && Public(before, n)
    ensures Public(after, n)
  {
  }

  /** A deploy that succeeds leaves every configured bucket public, and a
      deploy touches no bucket that is not configured. */
  lemma {:induction false} DeployAllPublishes(svc: Service, cloud: Cloud, bs: seq<BucketConfig>)
    ensures var r := DeployAll(svc, cloud, bs);
      && KeptOutside(cloud, r.cloud, Names(bs))
      && (r.outcome.Pass? ==> forall j | 0 <= j < |bs| :: Public(r.cloud, bs[j].name))
    decreases |bs|
  {
    if bs != [] {
      var n, rest := bs[0].name, bs[1..];
      var r1 := DeployOne(svc, cloud, bs[0]);
      DeployEffect(svc, cloud, bs[0]);
      NamesCons(bs);
      if r1.outcome.Fail? {
        KeptWider(cloud, r1.cloud, {n}, Names(bs));
      } else {
        var r := DeployAll(svc, r1.cloud, rest);
        DeployAllPublishes(svc, r1.cloud, rest);
        KeptTrans(cloud, r1.cloud, r.cloud, {n}, Names(rest));
        if r.outcome.Pass? {
          assert Public(r1.cloud, n);
          forall j | 0 <= j < |bs| ensures Public(r.cloud, bs[j].name) {
            if j > 0 {
              assert rest[j - 1] == bs[j];
            } else if n in Names(rest) {
              var i :| 0 <= i < |rest| && rest[i].name == n;
              assert Public(r.cloud, rest[i].name);
            } else {
              PublicKept(r1.cloud, r.cloud, Names(rest), n);
            }
          }
        }
      }
    }
  }

  // ----- teardown -----

  /** Lines 58-64: the bucket is emptied, then deleted. */
  function TeardownPlan(n: string): seq<Call>
  {
    [EmptyBucket(n), DeleteBucket(n)]
  }

  function TeardownOne(svc: Service, cloud: Cloud, b: BucketConfig): Run
  {
    Exec(svc, cloud, TeardownPlan(b.name))
  }

  /** Emptying first means the deletion is never refused for objects left in
      the bucket: tearing down succeeds exactly when the bucket exists and
      the service refuses neither request. It removes the bucket and nothing
      else, and the deletion is only requested once emptying succeeded. */
  lemma TeardownEffect(svc: Service, cloud: Cloud, b: BucketConfig)
    ensures var r := TeardownOne(svc, cloud, b);
      && KeptOutside(cloud, r.cloud, {b.name})
      && (r.outcome.Pass? <==> b.name in cloud && EmptyBucket(b.name) !in svc.faults && DeleteBucket(b.name) !in svc.faults)
      && (r.outcome.Pass? ==> b.name !in r.cloud)
      && r.issued[0] == EmptyBucket(b.name)
      && (DeleteBucket(b.name) in r.issued <==> b.name in cloud && EmptyBucket(b.name) !in svc.faults)
  {
    ExecKeepsOthers(svc, cloud, TeardownPlan(b.name), b.name);
    ExecTwo(svc, cloud, EmptyBucket(b.name), DeleteBucket(b.name));
  }

  /** Lines 66-70: the buckets in order, stopping at the first that fails. */
  function TeardownAll(svc: Service, cloud: Cloud, bs: seq<BucketConfig>): (r: Run)
    decreases |bs|
  {
    if bs == [] then Run(cloud, [], Pass)
    else
      var r := TeardownOne(svc, cloud, bs[0]);
      if r.outcome.Fail? then r else Follow(r.issued, TeardownAll(svc, r.cloud, bs[1..]))
  }

  function TeardownCalls(bs: seq<BucketConfig>): seq<Call>
    decreases |bs|
  {
    if bs == [] then [] else TeardownPlan(bs[0].name) + TeardownCalls(bs[1..])
  }

  /** `teardown` issues empty-then-delete for the buckets in configuration
      order and stops at the first rejected request. */
  lemma {:induction false} TeardownAllIsExec(svc: Service, cloud: Cloud, bs: seq<BucketConfig>)
    ensures TeardownAll(svc, cloud, bs) == Exec(svc, cloud, TeardownCalls(bs))
    decreases |bs|
  {
    if bs != [] {
      ExecAppend(svc, cloud, TeardownPlan(bs[0].name), TeardownCalls(bs[1..]));
      var r := TeardownOne(svc, cloud, bs[0]);
      if r.outcome.Pass? {
        TeardownAllIsExec(svc, r.cloud, bs[1..]);
      }
    }
  }

  /** A teardown that succeeds removes every configured bucket, and a
      teardown touches no bucket that is not configured. */
  lemma {:induction false} TeardownAllRemoves(svc: Service, cloud: Cloud, bs: seq<BucketConfig>)
    ensures var r := TeardownAll(svc, cloud, bs);
      && KeptOutside(cloud, r.cloud, Names(bs))
      && (r.outcome.Pass? ==> forall j | 0 <= j < |bs| :: bs[j].name !in r.cloud)
    decreases |bs|
  {
    if bs != [] {
      var n, rest := bs[0].name, bs[1..];
      var r1 := TeardownOne(svc, cloud, bs[0]);
      TeardownEffect(svc, cloud, bs[0]);
      NamesCons(bs);
      if r1.outcome.Fail? {
        KeptWider(cloud, r1.cloud, {n}, Names(bs));
      } else {
        var r := TeardownAll(svc, r1.cloud, rest);
        TeardownAllRemoves(svc, r1.cloud, rest);
        KeptTrans(cloud, r1.cloud, r.cloud, {n}, Names(rest));
        if r.outcome.Pass? {
          assert n !in r.cloud by {
            if n in Names(rest) {
              var i :| 0 <= i < |rest| && rest[i].name == n;
            }
          }
          forall j | 1 <= j < |bs| ensures bs[j].name !in r.cloud {
            assert rest[j - 1] == bs[j];
          }
        }
      }
    }
  }

  // ----- one turn of each task's loop -----

  lemma CheckTurn(svc: Service, cloud: Cloud, bs: seq<BucketConfig>, i: nat, done: seq<Call>, goal: Run)
    requires i < |bs| && goal == Follow(done, CheckAll(svc, cloud, bs[i..]))
    ensures var r := CheckOne(svc, cloud, bs[i]);
      if r.outcome.Fail? then goal == Follow(done, r)
      else goal == Follow(done + r.issued, CheckAll(svc, cloud, bs[i + 1..]))
  {
    assert bs[i..][0] == bs[i] && bs[i..][1..] == bs[i + 1..];
    var r := CheckOne(svc, cloud, bs[i]);
    if r.outcome.Pass? {
      FollowFollow(done, r.issued, CheckAll(svc, cloud, bs[i + 1..]));
    }
  }

  lemma DeployTurn(svc: Service, cloud: Cloud, bs: seq<BucketConfig>, i: nat, done: seq<Call>, goal: Run)
    requires i < |bs| && goal == Follow(done, DeployAll(svc, cloud, bs[i..]))
    ensures var r := DeployOne(svc, cloud, bs[i]);
      if r.outcome.Fail? then goal == Follow(done, r)
      else goal == Follow(done + r.issued, DeployAll(svc, r.cloud, bs[i + 1..]))
  {
    assert bs[i..][0] == bs[i] && bs[i..][1..] == bs[i + 1..];
    var r := DeployOne(svc, cloud, bs[i]);
    if r.outcome.Pass? {
      FollowFollow(done, r.issued, DeployAll(svc, r.cloud, bs[i + 1..]));
    }
  }

  lemma TeardownTurn(svc: Service, cloud: Cloud, bs: seq<BucketConfig>, i: nat, done: seq<Call>, goal: Run)
    requires i < |bs| && goal == Follow(done, TeardownAll(svc, cloud, bs[i..]))
    ensures var r := TeardownOne(svc, cloud, bs[i]);
      if r.outcome.Fail? then goal == Follow(done, r)
      else goal == Follow(done + r.issued, TeardownAll(svc, r.cloud, bs[i + 1..]))
  {
    assert bs[i..][0] == bs[i] && bs[i..][1..] == bs[i + 1..];
    var r := TeardownOne(svc, cloud, bs[i]);
    if r.outcome.Pass? {
      FollowFollow(done, r.issued, TeardownAll(svc, r.cloud, bs[i + 1..]));
    }
  }

  // ----- the tasks, as the client runs them -----

  /** Lines 5-11. */
  method CheckBucket(store: Store, b: BucketConfig) returns (out: Outcome)
    modifies store
    ensures store.Performed(old(store.trace), out, CheckOne(store.service, old(store.cloud), b))
  {
    ghost var t0 := store.trace;
    ghost var probe := Step(store.service, store.cloud, Call.HasBucket(b.name));
    ExecOne(store.service, store.cloud, Call.HasBucket(b.name));
    assert store.Heading(t0, probe, [Call.HasBucket(b.name)] + []);
    var found;
    out, found := store.HasBucket(b.name, t0, probe, []);
    if out.Pass? {
      store.Arrived(t0, probe);
      if !found {
        out := Fail(NotConfigured(b.name));
      }
    }
  }

  /** Lines 13-17. */
  method Check(store: Store, config: Config) returns (out: Outcome)
    modifies store
    ensures store.Performed(old(store.trace), out, CheckAll(store.service, old(store.cloud), config.buckets))
  {
    var bs := config.buckets;
    ghost var goal := CheckAll(store.service, store.cloud, bs);
    ghost var done: seq<Call> := [];
    out := Pass;
    assert bs[0..] == bs;
    FollowNothing(goal);
    for i := 0 to |bs|
      invariant out == Pass
      invariant store.trace == old(store.trace) + done
      invariant store.cloud == old(store.cloud)
      invariant goal == Follow(done, CheckAll(store.service, store.cloud, bs[i..]))
    {
      ghost var r := CheckOne(store.service, store.cloud, bs[i]);
      CheckTurn(store.service, store.cloud, bs, i, done, goal);
      out := CheckBucket(store, bs[i]);
      ConcatAssoc(old(store.trace), done, r.issued);
      if out.Fail? {
        return;
      }
      done := done + r.issued;
    }
    assert bs[|bs|..] == [];
    assert done + [] == done;
  }

  /** Lines 20-49: creates the bucket when it is missing, then puts it into
      website mode. */
  method DeployBucket(store: Store, b: BucketConfig) returns (out: Outcome)
    modifies store
    ensures store.Performed(old(store.trace), out, DeployOne(store.service, old(store.cloud), b))
  {
    ghost var t0 := store.trace;
    ghost var goal := DeployOne(store.service, store.cloud, b);
    ghost var tail := Publication(b.name) + HostingCalls(b);
    assert store.Heading(t0, goal, [Call.HasBucket(b.name)] + (Creation(b.name, b.name in store.cloud) + tail));
    var found;
    out, found := store.HasBucket(b.name, t0, goal, Creation(b.name, b.name in store.cloud) + tail);
    if out.Fail? {
      return;
    }
    if !found {
      Unroll2(Call.PutBucket(b.name), Sleep(StabilizeMs), tail);
      out := store.Issue(Call.PutBucket(b.name), t0, goal, [Sleep(StabilizeMs)] + tail);
      if out.Fail? {
        return;
      }
      out := store.Issue(Sleep(StabilizeMs), t0, goal, tail);
      if out.Fail? {
        return;
      }
    } else {
      assert Creation(b.name, found) + tail == tail;
    }
    out := WebsiteMode(store, b, t0, goal);
  }

  /** Lines 29-47: the rest of `deployBucket`, from wherever the run
      `goal` has got to. */
  method WebsiteMode(store: Store, b: BucketConfig, ghost t0: seq<Call>, ghost goal: Run) returns (out: Outcome)
    requires store.Heading(t0, goal, Publication(b.name) + HostingCalls(b))
    modifies store
    ensures store.Performed(t0, out, goal)
  {
    ghost var hosting := HostingCalls(b);
    Unroll2(RemoveBlocks(b.name), PutBucketPolicy(b.name, PublicReadPolicy(b.name)), hosting);
    out := store.Issue(RemoveBlocks(b.name), t0, goal, [PutBucketPolicy(b.name, PublicReadPolicy(b.name))] + hosting);
    if out.Fail? {
      return;
    }
    out := store.Issue(PutBucketPolicy(b.name, PublicReadPolicy(b.name)), t0, goal, hosting);
    if out.Fail? {
      return;
    }
    if b.website.Some? {
      assert hosting == [PutBucketWebsite(b.name, b.website.value)] + [];
      out := store.Issue(PutBucketWebsite(b.name, b.website.value), t0, goal, []);
      if out.Fail? {
        return;
      }
    } else if b.redirect.Some? {
      assert hosting == [PutBucketRedirect(b.name, b.redirect.value)] + [];
      out := store.Issue(PutBucketRedirect(b.name, b.redirect.value), t0, goal, []);
      if out.Fail? {
        return;
      }
    }
    store.Arrived(t0, goal);
  }

  /** Lines 51-55. */
  method Deploy(store: Store, config: Config) returns (out: Outcome)
    modifies store
    ensures store.Performed(old(store.trace), out, DeployAll(store.service, old(store.cloud), config.buckets))
  {
    var bs := config.buckets;
    ghost var goal := DeployAll(store.service, store.cloud, bs);
    ghost var done: seq<Call> := [];
    out := Pass;
    assert bs[0..] == bs;
    FollowNothing(goal);
    for i := 0 to |bs|
      invariant out == Pass
      invariant store.trace == old(store.trace) + done
      invariant goal == Follow(done, DeployAll(store.service, store.cloud, bs[i..]))
    {
      ghost var r := DeployOne(store.service, store.cloud, bs[i]);
      DeployTurn(store.service, store.cloud, bs, i, done, goal);
      out := DeployBucket(store, bs[i]);
      ConcatAssoc(old(store.trace), done, r.issued);
      if out.Fail? {
        return;
      }
      done := done + r.issued;
    }
    assert bs[|bs|..] == [];
    assert done + [] == done;
  }

  /** Lines 58-64. */
  method TeardownBucket(store: Store, b: BucketConfig) returns (out: Outcome)
    modifies store
    ensures store.Performed(old(store.trace), out, TeardownOne(store.service, old(store.cloud), b))
  {
    ghost var t0 := store.trace;
    ghost var goal := TeardownOne(store.service, store.cloud, b);
    assert TeardownPlan(b.name) == [EmptyBucket(b.name)] + ([DeleteBucket(b.name)] + []);
    assert store.Heading(t0, goal, [EmptyBucket(b.name)] + ([DeleteBucket(b.name)] + []));
    out := store.Issue(EmptyBucket(b.name), t0, goal, [DeleteBucket(b.name)] + []);
    if out.Fail? {
      return;
    }
    out := store.Issue(DeleteBucket(b.name), t0, goal, []);
    if out.Fail? {
      return;
    }
    store.Arrived(t0, goal);
  }

  /** Lines 66-70. */
  method Teardown(store: Store, config: Config) returns (out: Outcome)
    modifies store
    ensures store.Performed(old(store.trace), out, TeardownAll(store.service, old(store.cloud), config.buckets))
  {
    var bs := config.buckets;
    ghost var goal := TeardownAll(store.service, store.cloud, bs);
    ghost var done: seq<Call> := [];
    out := Pass;
    assert bs[0..] == bs;
    FollowNothing(goal);
    for i := 0 to |bs|
      invariant out == Pass
      invariant store.trace == old(store.trace) + done
      invariant goal == Follow(done, TeardownAll(store.service, store.cloud, bs[i..]))
    {
      ghost var r := TeardownOne(store.service, store.cloud, bs[i]);
      TeardownTurn(store.service, store.cloud, bs, i, done, goal);
      out := TeardownBucket(store, bs[i]);
      ConcatAssoc(old(store.trace), done, r.issued);
      if out.Fail? {
        return;
      }
      done := done + r.issued;
    }
    assert bs[|bs|..] == [];
    assert done + [] == done;
  }
}
