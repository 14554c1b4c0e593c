/** The object-storage service the deployment tasks talk to, kept abstract.
    Every request is a `Call` value; the service answers it from its state
    (`Cloud`) and either performs it or rejects it. Rejections come from two
    places: requests that cannot apply to the current state (no such bucket,
    bucket not empty) and a fixed set of requests the service is assumed to
    refuse (network, permission, throttling: anything the client reports as
    an exception). The `Store` class is the client object the tasks hold; it
    records every request it issues in `trace`. */
module Storage {

  datatype Option<+T> = None | Some(value: T)

  /** Payloads the tasks pass through without looking inside them. */
  datatype Website = Website(settings: string)
  datatype Redirect = Redirect(target: string)

  datatype Statement = Statement(sid: string, effect: string, principal: string, action: string, resource: string)
  datatype Policy = Policy(version: string, statements: seq<Statement>)

  /** One request to the storage service (or to the clock, for `Sleep`). */
  datatype Call =
    | HasBucket(bucket: string)
    | PutBucket(bucket: string)
    | Sleep(ms: nat)
    | RemoveBlocks(bucket: string)
    | PutBucketPolicy(bucket: string, policy: Policy)
    | PutBucketWebsite(bucket: string, website: Website)
    | PutBucketRedirect(bucket: string, redirect: Redirect)
    | EmptyBucket(bucket: string)
    | DeleteBucket(bucket: string)
    | ListObjects(bucket: string)
    | PutObject(bucket: string, key: string, contentMD5: string, contentType: string, cacheControl: string, body: string)
    | DeleteObject(bucket: string, key: string)

  /** One entry of a bucket listing: the object key and its raw ETag, which
      the service returns wrapped in double quotes. */
  datatype RemoteObject = RemoteObject(key: string, etag: string)

  datatype Error =
    | NotConfigured(name: string)   // a bucket that must exist does not
    | NoSite                        // sync was given a configuration without buckets
    | BadETag(key: string)          // a listed ETag is not quoted
    | Remote(call: Call)            // the service rejected this request

  datatype Outcome = Pass | Fail(error: Error)

  datatype StoredObject = StoredObject(etag: string, contentMD5: string, contentType: string, cacheControl: string, body: string)

  /** How a bucket answers web requests: not at all, as a site, or by redirecting everything. */
  datatype Hosting = Unhosted | Site(website: Website) | RedirectAll(redirect: Redirect)

  datatype BucketState = BucketState(objects: map<string, StoredObject>, blocked: bool, policy: Option<Policy>, hosting: Hosting)

  type Cloud = map<string, BucketState>

  /** The service's fixed behaviour: the requests it refuses, and the
      fingerprint it computes for an uploaded body (the ETag, unquoted). */
  datatype Service = Service(faults: set<Call>, digest: string -> string)

  /** What a run of requests did: the new state, the requests issued (the
      last one is the one that failed, if any) and the verdict. */
  datatype Run = Run(cloud: Cloud, issued: seq<Call>, outcome: Outcome)

  function Quote(s: string): (r: string)
  {
    "\"" + s + "\""
  }

  /** A fresh bucket: empty, with the provider's public-access block on. */
  const NewBucket := BucketState(map[], true, None, Unhosted)

  predicate NeedsBucket(c: Call)
  {
    !(c.HasBucket? || c.PutBucket? || c.Sleep?)
  }

  /** The service rejects `c` in state `cloud`. */
  predicate Rejects(svc: Service, cloud: Cloud, c: Call)
  {
    || c in svc.faults
    || (NeedsBucket(c) && c.bucket !in cloud)
    || (c.DeleteBucket? && c.bucket in cloud && cloud[c.bucket].objects != map[])
  }

  /** The new state after the service performs `c`. */
  function Effect(svc: Service, cloud: Cloud, c: Call): Cloud
    requires !Rejects(svc, cloud, c)
  {
    match c
    case HasBucket(_) => cloud
    case Sleep(_) => cloud
    case ListObjects(_) => cloud
    case PutBucket(n) => if n in cloud then cloud else cloud[n := NewBucket]
    case RemoveBlocks(n) => cloud[n := cloud[n].(blocked := false)]
    case PutBucketPolicy(n, p) => cloud[n := cloud[n].(policy := Some(p))]
    case PutBucketWebsite(n, w) => cloud[n := cloud[n].(hosting := Site(w))]
    case PutBucketRedirect(n, r) => cloud[n := cloud[n].(hosting := RedirectAll(r))]
    case EmptyBucket(n) => cloud[n := cloud[n].(objects := map[])]
    case DeleteBucket(n) => cloud - {n}
    case PutObject(n, k, md5, ty, cc, body) =>
      cloud[n := cloud[n].(objects := cloud[n].objects[k := StoredObject(Quote(svc.digest(body)), md5, ty, cc, body)])]
    case DeleteObject(n, k) => cloud[n := cloud[n].(objects := cloud[n].objects - {k})]
  }

  /** The service answers one request. */
  function Step(svc: Service, cloud: Cloud, c: Call): Run
  {
    if Rejects(svc, cloud, c) then Run(cloud, [c], Fail(Remote(c)))
    else Run(Effect(svc, cloud, c), [c], Pass)
  }

  /** `r`, preceded by requests already issued. */
  function Follow(done: seq<Call>, r: Run): Run
  {
    Run(r.cloud, done + r.issued, r.outcome)
  }

  lemma ConcatAssoc(a: seq<Call>, b: seq<Call>, c: seq<Call>)
    ensures (a + b) + c == a + (b + c)
  {
  }

  lemma Unroll2(c: Call, d: Call, rest: seq<Call>)
    ensures [c, d] + rest == [c] + ([d] + rest)
  {
  }

  lemma FollowNothing(r: Run)
    ensures Follow([], r) == r
  {
    assert [] + r.issued == r.issued;
  }

  /** Issues `calls` one at a time, stopping at the first rejection. */
  function Exec(svc: Service, cloud: Cloud, calls: seq<Call>): (r: Run)
    ensures r.issued <= calls
    ensures r.outcome.Pass? ==> r.issued == calls
    ensures r.outcome.Fail? ==> r.issued != [] && r.outcome == Fail(Remote(r.issued[|r.issued| - 1]))
    decreases |calls|
  {
    if calls == [] then Run(cloud, [], Pass)
    else
      var s := Step(svc, cloud, calls[0]);
      if s.outcome.Fail? then s
      else
        var rest := Exec(svc, s.cloud, calls[1..]);
        assert calls[0..1] + calls[1..] == calls;
        Follow([calls[0]], rest)
  }

  lemma FollowFollow(a: seq<Call>, b: seq<Call>, r: Run)
    ensures Follow(a, Follow(b, r)) == Follow(a + b, r)
  {
    assert a + (b + r.issued) == (a + b) + r.issued;
  }

  /** A run of at least one request: the first request's step, then the rest. */
  lemma ExecCons(svc: Service, cloud: Cloud, calls: seq<Call>)
    requires calls != []
    ensures var s := Step(svc, cloud, calls[0]);
      Exec(svc, cloud, calls) == if s.outcome.Fail? then s else Follow([calls[0]], Exec(svc, s.cloud, calls[1..]))
  {
  }

  /** Issuing `p` then `q` is issuing `p`, then, unless it failed, `q` from
      the state `p` left. */
  lemma {:induction false} ExecAppend(svc: Service, cloud: Cloud, p: seq<Call>, q: seq<Call>)
    ensures Exec(svc, cloud, p + q) ==
      var r := Exec(svc, cloud, p);
      if r.outcome.Fail? then r else Follow(r.issued, Exec(svc, r.cloud, q))
    decreases |p|
  {
    if p == [] {
      assert p + q == q;
      assert Exec(svc, cloud, p) == Run(cloud, [], Pass);
      FollowNothing(Exec(svc, cloud, q));
    } else {
      assert (p + q)[0] == p[0] && (p + q)[1..] == p[1..] + q;
      ExecCons(svc, cloud, p + q);
      ExecCons(svc, cloud, p);
      var s := Step(svc, cloud, p[0]);
      if s.outcome.Pass? {
        ExecAppend(svc, s.cloud, p[1..], q);
        var r1 := Exec(svc, s.cloud, p[1..]);
        if r1.outcome.Pass? {
          FollowFollow([p[0]], r1.issued, Exec(svc, r1.cloud, q));
        }
      }
    }
  }

  /** One request, as a run. */
  lemma ExecOne(svc: Service, cloud: Cloud, c: Call)
    ensures Exec(svc, cloud, [c]) == Step(svc, cloud, c)
  {
    assert [c][1..] == [];
  }

  /** Two requests, as a run. */
  lemma ExecTwo(svc: Service, cloud: Cloud, c: Call, d: Call)
    ensures Exec(svc, cloud, [c, d]) ==
      var s := Step(svc, cloud, c);
      if s.outcome.Fail? then s else Follow([c], Step(svc, s.cloud, d))
  {
    assert [c, d] == [c] + [d];
    ExecAppend(svc, cloud, [c], [d]);
    ExecOne(svc, cloud, c);
    var s := Step(svc, cloud, c);
    ExecOne(svc, s.cloud, d);
  }

  lemma SliceSnoc(trace: seq<Call>, trace0: seq<Call>, c: Call)
    requires |trace0| <= |trace| && trace[..|trace0|] == trace0
    ensures |trace0| <= |trace + [c]| && (trace + [c])[..|trace0|] == trace0
    ensures (trace + [c])[|trace0|..] == trace[|trace0|..] + [c]
  {
  }

  /** What `Store.Issue` relies on: after the next request `c` of a planned
      run, answered by `first`, the run is over if `c` was rejected, and
      otherwise `rest` is pending. */
  lemma HeadingStep(svc: Service, cloud: Cloud, trace: seq<Call>, trace0: seq<Call>, goal: Run, c: Call, rest: seq<Call>, first: Run)
    requires |trace0| <= |trace| && trace[..|trace0|] == trace0
    requires goal == Follow(trace[|trace0|..], Exec(svc, cloud, [c] + rest))
    requires first.issued == [c]
    requires Exec(svc, cloud, [c] + rest) == if first.outcome.Fail? then first else Follow([c], Exec(svc, first.cloud, rest))
    ensures var t := trace + [c];
      && (first.outcome.Fail? ==> first.cloud == goal.cloud && t == trace0 + goal.issued && first.outcome == goal.outcome)
      && (first.outcome.Pass? ==>
            |trace0| <= |t| && t[..|trace0|] == trace0 && goal == Follow(t[|trace0|..], Exec(svc, first.cloud, rest)))
  {
    var done := trace[|trace0|..];
    var t := trace + [c];
    SliceSnoc(trace, trace0, c);
    if first.outcome.Fail? {
      assert t == trace0 + (done + [c]);
    } else {
      FollowFollow(done, [c], Exec(svc, first.cloud, rest));
    }
  }

  /** The storage client. `cloud` is the service's state as the client's
      requests change it; `trace` is every request issued so far. */
  class Store {
    var cloud: Cloud
    var trace: seq<Call>
    const service: Service

    constructor (cloud0: Cloud, service: Service)
      ensures cloud == cloud0 && trace == [] && this.service == service
    {
      cloud := cloud0;
      trace := [];
      this.service := service;
    }

    /** The client's state is `r`'s, and its trace is `trace0` followed by `r`'s requests. */
    ghost predicate Performed(trace0: seq<Call>, out: Outcome, r: Run)
      reads this
    {
      cloud == r.cloud && trace == trace0 + r.issued && out == r.outcome
    }

    /** The client is partway through the run `goal`, which began at trace
        `trace0`: what it has issued since is `goal`'s beginning, and issuing
        `pending` from here completes it. */
    ghost predicate Heading(trace0: seq<Call>, goal: Run, pending: seq<Call>)
      reads this
    {
      |trace0| <= |trace| && trace[..|trace0|] == trace0
      && goal == Follow(trace[|trace0|..], Exec(service, cloud, pending))
    }

    /** A run that has nothing pending is complete. */
    lemma Arrived(trace0: seq<Call>, goal: Run)
      requires Heading(trace0, goal, [])
      ensures Performed(trace0, Pass, goal)
    {
      assert trace == trace[..|trace0|] + trace[|trace0|..];
    }

    /** Sends the next request `c` of a planned run: if the service rejects
        it the run is over, otherwise `rest` is pending. */
    method Issue(c: Call, ghost trace0: seq<Call>, ghost goal: Run, ghost rest: seq<Call>) returns (out: Outcome)
      requires Heading(trace0, goal, [c] + rest)
      modifies this
      ensures Performed(old(trace), out, Step(service, old(cloud), c))
      ensures out.Fail? ==> Performed(trace0, out, goal)
      ensures out.Pass? ==> Heading(trace0, goal, rest)
    {
      var first := Step(service, cloud, c);
      ExecCons(service, cloud, [c] + rest);
      assert ([c] + rest)[0] == c && ([c] + rest)[1..] == rest;
      HeadingStep(service, cloud, trace, trace0, goal, c, rest, first);
      out := Request(c);
    }

    /** Sends a request whose answer carries no data. */
    method Request(c: Call) returns (out: Outcome)
      modifies this
      ensures Performed(old(trace), out, Step(service, old(cloud), c))
    {
      var r := Step(service, cloud, c);
      cloud := r.cloud;
      trace := trace + r.issued;
      out := r.outcome;
    }

    /** Asks whether a bucket exists, as the next request of a planned run. */
    method HasBucket(name: string, ghost trace0: seq<Call>, ghost goal: Run, ghost rest: seq<Call>) returns (out: Outcome, found: bool)
      requires Heading(trace0, goal, [Call.HasBucket(name)] + rest)
      modifies this
      ensures out.Fail? ==> Performed(trace0, out, goal)
      ensures out.Pass? ==> Heading(trace0, goal, rest) && (found <==> name in old(cloud))
    {
      out := Issue(Call.HasBucket(name), trace0, goal, rest);
      found := name in cloud;
    }

    /** Lists every object of a bucket, in an order the service chooses. */
    method ListObjects(name: string) returns (out: Outcome, listing: seq<RemoteObject>)
      modifies this
      ensures Performed(old(trace), out, Step(service, old(cloud), Call.ListObjects(name)))
      ensures out.Pass? ==> name in cloud && Enumerates(listing, cloud[name].objects)
    {
      out := Request(Call.ListObjects(name));
      listing := [];
      if out.Fail? {
        return;
      }
      var objects := cloud[name].objects;
      var rest := objects.Keys;
      while rest != {}
        invariant rest <= objects.Keys
        invariant forall i | 0 <= i < |listing| :: listing[i].key in objects && listing[i].key !in rest
        invariant forall i | 0 <= i < |listing| :: listing[i].etag == objects[listing[i].key].etag
        invariant forall i, j | 0 <= i < j < |listing| :: listing[i].key != listing[j].key
        invariant KeysOf(listing) == objects.Keys - rest
        decreases rest
      {
        var k :| k in rest;
        ghost var before := listing;
        listing := listing + [RemoteObject(k, objects[k].etag)];
        assert KeysOf(listing) == KeysOf(before) + {k} by {
          assert forall i | 0 <= i < |before| :: listing[i] == before[i];
          assert listing[|before|].key == k;
        }
        rest := rest - {k};
      }
    }
  }

  function KeysOf(listing: seq<RemoteObject>): set<string>
  {
    set i | 0 <= i < |listing| :: listing[i].key
  }

  /** `listing` names every object of `objects` once, with its ETag. */
  ghost predicate Enumerates(listing: seq<RemoteObject>, objects: map<string, StoredObject>)
  {
    && KeysOf(listing) == objects.Keys
    && (forall i | 0 <= i < |listing| :: listing[i].key in objects && listing[i].etag == objects[listing[i].key].etag)
    && (forall i, j | 0 <= i < j < |listing| :: listing[i].key != listing[j].key)
  }
}
