/** `sync`: lists the site's bucket, works out the operations that make it
    match the local files, and carries them out one request at a time,
    stopping at the first the service rejects. The site's bucket is the
    first configured one. */
module SiteSync {
  import opened Storage
  import opened Reconcile
  import opened DiffProperties
  import opened Lifecycle

  /** Lines 122 and 134: the cache policy every upload carries. */
  const CacheControl := "max-age=60, s-maxage=31536000"

  /** Lines 114-141: the request one operation becomes. An add and an
      update are the same upload. */
  function CallFor(name: string, op: Op): Call
  {
    match op
    case Add(k, f) => PutObject(name, k, f.hash64, f.contentType, CacheControl, f.content)
    case Update(k, f) => PutObject(name, k, f.hash64, f.contentType, CacheControl, f.content)
    case Delete(k) => DeleteObject(name, k)
  }

  /** Lines 112-142: the requests of an operation list, in its order. */
  function ApplyCalls(name: string, ops: seq<Op>): seq<Call>
    decreases |ops|
  {
    if ops == [] then [] else [CallFor(name, ops[0])] + ApplyCalls(name, ops[1..])
  }

  lemma ApplyCallsAt(name: string, ops: seq<Op>, i: nat)
    requires i < |ops|
    ensures ApplyCalls(name, ops[i..]) == [CallFor(name, ops[i])] + ApplyCalls(name, ops[i + 1..])
  {
    assert ops[i..][0] == ops[i] && ops[i..][1..] == ops[i + 1..];
  }

  /** Lines 113-141: one request per operation, in the list's order; an add
      or update puts the file's content under its key with its base64
      digest, its content type and the fixed cache policy, a delete removes
      the key. */
  lemma {:induction false} OneRequestPerOperation(name: string, ops: seq<Op>)
    ensures |ApplyCalls(name, ops)| == |ops|
    ensures forall i | 0 <= i < |ops| ::
              ApplyCalls(name, ops)[i] ==
                if ops[i].Delete? then DeleteObject(name, ops[i].key)
                else PutObject(name, ops[i].key, ops[i].file.hash64, ops[i].file.contentType, CacheControl, ops[i].file.content)
    decreases |ops|
  {
    if ops != [] {
      OneRequestPerOperation(name, ops[1..]);
      assert forall i | 1 <= i < |ops| :: ops[1..][i - 1] == ops[i];
    }
  }

  /** Every stored ETag is quoted, as the service writes them. */
  predicate EtagsQuoted(objects: map<string, StoredObject>)
  {
    forall k | k in objects :: Quoted(objects[k].etag)
  }

  /** The dictionary of published items `sync` builds from a bucket's objects. */
  function PublishedItems(objects: map<string, StoredObject>): map<string, string>
    requires EtagsQuoted(objects)
  {
    map k | k in objects :: Unquote(objects[k].etag)
  }

  /** A file's hex fingerprint is the one the service computes for its content. */
  predicate Honest(svc: Service, f: LocalFile)
  {
    f.hash16 == svc.digest(f.content)
  }

  predicate HonestFiles(svc: Service, files: seq<LocalFile>)
  {
    forall i | 0 <= i < |files| :: Honest(svc, files[i])
  }

  predicate HonestOps(svc: Service, ops: seq<Op>)
  {
    forall i | 0 <= i < |ops| && !ops[i].Delete? :: Honest(svc, ops[i].file)
  }

  /** A listing of the bucket's objects is all quoted exactly when the
      stored ETags are, and then it indexes to the published items. */
  lemma ListingIndex(listing: seq<RemoteObject>, objects: map<string, StoredObject>)
    requires Enumerates(listing, objects)
    ensures AllQuoted(listing) <==> EtagsQuoted(objects)
    ensures AllQuoted(listing) ==> Index(listing) == PublishedItems(objects)
  {
    if EtagsQuoted(objects) {
      forall i | 0 <= i < |listing| ensures Quoted(listing[i].etag) {
        assert listing[i].key in objects;
      }
    }
    if AllQuoted(listing) {
      IndexOfEnumeration(listing, objects);
    }
  }

  lemma PublishPut(objects: map<string, StoredObject>, k: string, entry: StoredObject)
    requires EtagsQuoted(objects) && Quoted(entry.etag)
    ensures EtagsQuoted(objects[k := entry])
    ensures PublishedItems(objects[k := entry]) == PublishedItems(objects)[k := Unquote(entry.etag)]
  {
  }

  lemma PublishDelete(objects: map<string, StoredObject>, k: string)
    requires EtagsQuoted(objects)
    ensures EtagsQuoted(objects - {k})
    ensures PublishedItems(objects - {k}) == PublishedItems(objects) - {k}
  {
  }

  /** One operation's request: it fails only when the service refuses it;
      otherwise it changes only the site's bucket, stores an upload with its
      metadata, and moves the published items as `Carry` does. */
  lemma CallForStep(svc: Service, cloud: Cloud, name: string, op: Op)
    requires name in cloud && EtagsQuoted(cloud[name].objects)
    requires !op.Delete? ==> Honest(svc, op.file)
    ensures var s := Step(svc, cloud, CallFor(name, op));
      && KeptOutside(cloud, s.cloud, {name})
      && (s.outcome.Pass? <==> CallFor(name, op) !in svc.faults)
      && (s.outcome.Pass? ==>
        && name in s.cloud && EtagsQuoted(s.cloud[name].objects)
        && PublishedItems(s.cloud[name].objects) == Carry(PublishedItems(cloud[name].objects), op)
        && (!op.Delete? ==>
              (op.key in s.cloud[name].objects
               && s.cloud[name].objects[op.key] == StoredObject(Quote(op.file.hash16), op.file.hash64, op.file.contentType, CacheControl, op.file.content))))
  {
    var s := Step(svc, cloud, CallFor(name, op));
    if s.outcome.Pass? {
      var before := cloud[name].objects;
      var after := s.cloud[name].objects;
      if !op.Delete? {
        var entry := StoredObject(Quote(op.file.hash16), op.file.hash64, op.file.contentType, CacheControl, op.file.content);
        QuoteRoundTrip(op.file.hash16);
        assert after == before[op.key := entry];
        PublishPut(before, op.key, entry);
      } else {
        assert after == before - {op.key};
        PublishDelete(before, op.key);
      }
    }
  }

  lemma HonestTail(svc: Service, ops: seq<Op>)
    requires ops != [] && HonestOps(svc, ops)
    ensures HonestOps(svc, ops[1..])
  {
    forall i | 0 <= i < |ops[1..]| && !ops[1..][i].Delete? ensures Honest(svc, ops[1..][i].file) {
      assert ops[1..][i] == ops[i + 1];
    }
  }

  lemma ApplyCallsCons(name: string, ops: seq<Op>)
    requires ops != []
    ensures var calls := ApplyCalls(name, ops);
      calls != [] && calls[0] == CallFor(name, ops[0]) && calls[1..] == ApplyCalls(name, ops[1..])
  {
  }

  /** The apply loop changes only the site's bucket, which stays in place
      with ETags that parse. */
  lemma {:induction false} ApplyKeeps(svc: Service, cloud: Cloud, name: string, ops: seq<Op>)
    requires name in cloud && EtagsQuoted(cloud[name].objects) && HonestOps(svc, ops)
    ensures var r := Exec(svc, cloud, ApplyCalls(name, ops));
      && KeptOutside(cloud, r.cloud, {name})
      && name in r.cloud && EtagsQuoted(r.cloud[name].objects)
    decreases |ops|
  {
    if ops != [] {
      ApplyCallsCons(name, ops);
      ExecCons(svc, cloud, ApplyCalls(name, ops));
      CallForStep(svc, cloud, name, ops[0]);
      var s := Step(svc, cloud, CallFor(name, ops[0]));
      if s.outcome.Pass? {
        HonestTail(svc, ops);
        ApplyKeeps(svc, s.cloud, name, ops[1..]);
        KeptTrans(cloud, s.cloud, Exec(svc, s.cloud, ApplyCalls(name, ops[1..])).cloud, {name}, {name});
      }
    }
  }

  lemma UnrefusedCons(svc: Service, name: string, ops: seq<Op>)
    requires ops != []
    ensures (forall i | 0 <= i < |ops| :: CallFor(name, ops[i]) !in svc.faults) <==>
      CallFor(name, ops[0]) !in svc.faults && forall i | 0 <= i < |ops[1..]| :: CallFor(name, ops[1..][i]) !in svc.faults
  {
    assert forall i | 1 <= i < |ops| :: ops[1..][i - 1] == ops[i];
  }

  /** The apply loop succeeds exactly when the service refuses none of its requests. */
  lemma {:induction false} ApplyPasses(svc: Service, cloud: Cloud, name: string, ops: seq<Op>)
    requires name in cloud && EtagsQuoted(cloud[name].objects) && HonestOps(svc, ops)
    ensures Exec(svc, cloud, ApplyCalls(name, ops)).outcome.Pass? <==> forall i | 0 <= i < |ops| :: CallFor(name, ops[i]) !in svc.faults
    decreases |ops|
  {
    if ops != [] {
      ApplyCallsCons(name, ops);
      ExecCons(svc, cloud, ApplyCalls(name, ops));
      CallForStep(svc, cloud, name, ops[0]);
      var s := Step(svc, cloud, CallFor(name, ops[0]));
      if s.outcome.Pass? {
        HonestTail(svc, ops);
        ApplyPasses(svc, s.cloud, name, ops[1..]);
        UnrefusedCons(svc, name, ops);
      }
    }
  }

  /** An apply loop that succeeds leaves the published items equal to the
      replay of the operations. */
  lemma {:induction false} ApplyReplay(svc: Service, cloud: Cloud, name: string, ops: seq<Op>)
    requires name in cloud && EtagsQuoted(cloud[name].objects) && HonestOps(svc, ops)
    ensures var r := Exec(svc, cloud, ApplyCalls(name, ops));
      r.outcome.Pass? ==>
        (name in r.cloud && EtagsQuoted(r.cloud[name].objects)
         && PublishedItems(r.cloud[name].objects) == Replay(PublishedItems(cloud[name].objects), ops))
    decreases |ops|
  {
    ApplyKeeps(svc, cloud, name, ops);
    if ops != [] {
      ApplyCallsCons(name, ops);
      ExecCons(svc, cloud, ApplyCalls(name, ops));
      CallForStep(svc, cloud, name, ops[0]);
      var s := Step(svc, cloud, CallFor(name, ops[0]));
      if s.outcome.Pass? {
        HonestTail(svc, ops);
        ApplyReplay(svc, s.cloud, name, ops[1..]);
      }
    }
  }

  /** Lines 112-142: carrying out an operation list fails exactly when the
      service refuses one of its requests, changes only the site's bucket,
      and when it succeeds leaves published items equal to `Replay` of the
      list. */
  lemma ApplyReplays(svc: Service, cloud: Cloud, name: string, ops: seq<Op>)
    requires name in cloud && EtagsQuoted(cloud[name].objects) && HonestOps(svc, ops)
    ensures var r := Exec(svc, cloud, ApplyCalls(name, ops));
      && KeptOutside(cloud, r.cloud, {name})
      && name in r.cloud && EtagsQuoted(r.cloud[name].objects)
      && (r.outcome.Pass? <==> forall i | 0 <= i < |ops| :: CallFor(name, ops[i]) !in svc.faults)
      && (r.outcome.Pass? ==> PublishedItems(r.cloud[name].objects) == Replay(PublishedItems(cloud[name].objects), ops))
  {
    ApplyKeeps(svc, cloud, name, ops);
    ApplyPasses(svc, cloud, name, ops);
    ApplyReplay(svc, cloud, name, ops);
  }

  /** Operations built from honest files are honest. */
  lemma HonestOperations(svc: Service, files: seq<LocalFile>, published: map<string, string>, ops: seq<Op>)
    requires UniquePaths(files) && HonestFiles(svc, files) && Reconciles(files, published, ops)
    ensures HonestOps(svc, ops)
  {
    var c := Changes(files, published);
    ChangesFromFiles(files, published);
    forall i | 0 <= i < |ops| && !ops[i].Delete? ensures Honest(svc, ops[i].file) {
      if i < |c| {
        assert ops[i] == c[i] && ops[i] in c;
        var j :| 0 <= j < |files| && files[j] == ops[i].file;
      }
    }
  }

  /** Lines 73-74, at the service: when the fingerprints are the service's
      own and the local paths are unique, a sync whose requests all succeed
      leaves the site's bucket publishing exactly the local files, each with
      its fingerprint, and no other bucket changed. */
  lemma SyncConverges(svc: Service, cloud: Cloud, name: string, files: seq<LocalFile>, ops: seq<Op>)
    requires name in cloud && EtagsQuoted(cloud[name].objects)
    requires UniquePaths(files) && HonestFiles(svc, files)
    requires Reconciles(files, PublishedItems(cloud[name].objects), ops)
    ensures var r := Exec(svc, cloud, ApplyCalls(name, ops));
      && KeptOutside(cloud, r.cloud, {name})
      && name in r.cloud && EtagsQuoted(r.cloud[name].objects)
      && (r.outcome.Pass? <==> forall i | 0 <= i < |ops| :: CallFor(name, ops[i]) !in svc.faults)
      && (r.outcome.Pass? ==> PublishedItems(r.cloud[name].objects) == Fingerprints(files))
  {
    var published := PublishedItems(cloud[name].objects);
    HonestOperations(svc, files, published, ops);
    ApplyReplays(svc, cloud, name, ops);
    Converges(files, published, ops);
  }

  /** Lines 143-144: after a sync whose requests all succeed, the next sync
      of the same files finds nothing to do, and issues nothing but the
      listing. */
  lemma ResyncIsQuiet(svc: Service, cloud: Cloud, name: string, files: seq<LocalFile>, ops: seq<Op>, again: seq<Op>)
    requires name in cloud && EtagsQuoted(cloud[name].objects)
    requires UniquePaths(files) && HonestFiles(svc, files)
    requires Reconciles(files, PublishedItems(cloud[name].objects), ops)
    requires Exec(svc, cloud, ApplyCalls(name, ops)).outcome.Pass?
    ensures var after := Exec(svc, cloud, ApplyCalls(name, ops)).cloud;
      name in after && EtagsQuoted(after[name].objects)
      && (Reconciles(files, PublishedItems(after[name].objects), again) ==> again == [] && ApplyCalls(name, again) == [])
  {
    SyncConverges(svc, cloud, name, files, ops);
    var after := Exec(svc, cloud, ApplyCalls(name, ops)).cloud;
    if Reconciles(files, PublishedItems(after[name].objects), again) {
      NoOperationsIffInSync(files, PublishedItems(after[name].objects), again);
    }
  }

  /** Re-running is the recovery path after a partial failure: whatever
      prefix of the requests went through under `svc`, the site's bucket
      still exists and its ETags still parse, so the next sync builds its
      dictionary. The re-run meets the service as it is then (`retry`, with
      its own refusals): it succeeds exactly when none of its requests is
      refused, and then publishes exactly the local files. */
  lemma RerunRecovers(svc: Service, retry: Service, cloud: Cloud, name: string, files: seq<LocalFile>, ops: seq<Op>, again: seq<Op>)
    requires name in cloud && EtagsQuoted(cloud[name].objects)
    requires UniquePaths(files) && HonestFiles(svc, files) && HonestFiles(retry, files)
    requires Reconciles(files, PublishedItems(cloud[name].objects), ops)
    ensures var mid := Exec(svc, cloud, ApplyCalls(name, ops)).cloud;
      && name in mid && EtagsQuoted(mid[name].objects)
      && (Reconciles(files, PublishedItems(mid[name].objects), again) ==>
            var end := Exec(retry, mid, ApplyCalls(name, again));
            && (end.outcome.Pass? <==> forall i | 0 <= i < |again| :: CallFor(name, again[i]) !in retry.faults)
            && (end.outcome.Pass? ==> name in end.cloud && EtagsQuoted(end.cloud[name].objects) && PublishedItems(end.cloud[name].objects) == Fingerprints(files)))
  {
    SyncConverges(svc, cloud, name, files, ops);
    var mid := Exec(svc, cloud, ApplyCalls(name, ops)).cloud;
    if Reconciles(files, PublishedItems(mid[name].objects), again) {
      SyncConverges(retry, mid, name, files, again);
    }
  }

  /** Lines 112-142: carries out `ops` as the rest of the run `goal`. */
  method Apply(store: Store, name: string, ops: seq<Op>, ghost t0: seq<Call>, ghost goal: Run) returns (out: Outcome)
    requires store.Heading(t0, goal, ApplyCalls(name, ops))
    modifies store
    ensures store.Performed(t0, out, goal)
  {
    out := Pass;
    assert ops[0..] == ops;
    for i := 0 to |ops|
      invariant out == Pass
      invariant store.Heading(t0, goal, ApplyCalls(name, ops[i..]))
    {
      ApplyCallsAt(name, ops, i);
      var op := ops[i];
      ghost var rest := ApplyCalls(name, ops[i + 1..]);
      if op.Add? {
        out := store.Issue(PutObject(name, op.key, op.file.hash64, op.file.contentType, CacheControl, op.file.content), t0, goal, rest);
      } else if op.Update? {
        out := store.Issue(PutObject(name, op.key, op.file.hash64, op.file.contentType, CacheControl, op.file.content), t0, goal, rest);
      } else {
        out := store.Issue(DeleteObject(name, op.key), t0, goal, rest);
      }
      if out.Fail? {
        return;
      }
    }
    assert ops[|ops|..] == [];
    store.Arrived(t0, goal);
  }

  /** Lines 75-147. A configuration without buckets fails before any
      request. Otherwise the site's bucket is listed; an ETag that is not
      quoted fails the sync with nothing changed; else the operations
      `ops` reconcile the files with the published items, and their requests
      are issued after the listing, stopping at the first rejection. */
  method Sync(store: Store, config: Config, files: seq<LocalFile>) returns (out: Outcome, ops: seq<Op>)
    modifies store
    ensures config.buckets == [] ==> out == Fail(NoSite) && store.cloud == old(store.cloud) && store.trace == old(store.trace)
    ensures config.buckets != [] ==>
      var name := config.buckets[0].name;
      var listed := Step(store.service, old(store.cloud), ListObjects(name));
      if listed.outcome.Fail? then store.Performed(old(store.trace), out, listed)
      else if !EtagsQuoted(old(store.cloud)[name].objects) then
        && store.Performed(old(store.trace), out, Run(old(store.cloud), [ListObjects(name)], out))
        && out.Fail? && out.error.BadETag?
        && out.error.key in old(store.cloud)[name].objects && !Quoted(old(store.cloud)[name].objects[out.error.key].etag)
      else
        && Reconciles(files, PublishedItems(old(store.cloud)[name].objects), ops)
        && store.Performed(old(store.trace), out, Follow([ListObjects(name)], Exec(store.service, old(store.cloud), ApplyCalls(name, ops))))
  {
    ops := [];
    if config.buckets == [] {
      out := Fail(NoSite);
      return;
    }
    var name := config.buckets[0].name;
    ghost var t0, c0 := store.trace, store.cloud;
    var listing;
    out, listing := store.ListObjects(name);
    if out.Fail? {
      return;
    }
    ListingIndex(listing, c0[name].objects);
    var published;
    out, published := BuildIndex(listing);
    if out.Fail? {
      return;
    }
    ops := Diff(files, published);
    ghost var goal := Follow([ListObjects(name)], Exec(store.service, c0, ApplyCalls(name, ops)));
    assert store.trace[|t0|..] == [ListObjects(name)];
    out := Apply(store, name, ops, t0, goal);
  }
}
