/** The diff half of `sync`: the dictionary of published items built from a
    bucket listing, and the add/update/delete operations that make the
    bucket's contents match the local files. The local files are
    authoritative; the listing only tells which keys exist and with which
    fingerprint. */
module Reconcile {
  import opened Storage

  /** A file to publish. `hash16` is its content fingerprint in the form the
      service reports ETags (hex MD5), `hash64` the same digest in base64 for
      the upload's integrity check. All four are opaque here. */
  datatype LocalFile = LocalFile(path: string, hash16: string, hash64: string, contentType: string, content: string)

  datatype Op = Add(key: string, file: LocalFile) | Update(key: string, file: LocalFile) | Delete(key: string)

  /** An ETag as the service sends it: text between a pair of double quotes. */
  predicate Quoted(s: string)
  {
    |s| >= 2 && s[0] == '"' && s[|s| - 1] == '"'
  }

  /** The parsed value of a quoted ETag: the text between the quotes. */
  function Unquote(s: string): string
    requires Quoted(s)
  {
    s[1..|s| - 1]
  }

  lemma QuoteRoundTrip(s: string)
    ensures Quoted(Quote(s)) && Unquote(Quote(s)) == s
  {
  }

  lemma UnquoteRoundTrip(s: string)
    requires Quoted(s)
    ensures Quote(Unquote(s)) == s
  {
    assert Quote(Unquote(s)) == s[..1] + s[1..|s| - 1] + s[|s| - 1..];
  }

  predicate AllQuoted(listing: seq<RemoteObject>)
  {
    forall i | 0 <= i < |listing| :: Quoted(listing[i].etag)
  }

  /** The dictionary of published items: every listed key to its unquoted
      ETag. Later entries overwrite earlier ones with the same key. */
  function Index(listing: seq<RemoteObject>): map<string, string>
    requires AllQuoted(listing)
  {
    if listing == [] then map[]
    else
      var last := listing[|listing| - 1];
      Index(listing[..|listing| - 1])[last.key := Unquote(last.etag)]
  }

  /** Entry `i` is the last one of the listing with its key. */
  predicate LastWithKey(listing: seq<RemoteObject>, i: int)
    requires 0 <= i < |listing|
  {
    forall j | i < j < |listing| :: listing[j].key != listing[i].key
  }

  lemma KeysOfSnoc(listing: seq<RemoteObject>)
    requires listing != []
    ensures KeysOf(listing) == KeysOf(listing[..|listing| - 1]) + {listing[|listing| - 1].key}
  {
    var prefix := listing[..|listing| - 1];
    assert forall i | 0 <= i < |prefix| :: prefix[i] == listing[i];
  }

  /** The dictionary holds exactly the listed keys. */
  lemma {:induction false} IndexKeys(listing: seq<RemoteObject>)
    requires AllQuoted(listing)
    ensures Index(listing).Keys == KeysOf(listing)
  {
    if listing != [] {
      IndexKeys(listing[..|listing| - 1]);
      KeysOfSnoc(listing);
    }
  }

  /** Each key holds the unquoted ETag of the last entry that lists it. */
  lemma {:induction false} IndexLastWins(listing: seq<RemoteObject>, i: nat)
    requires AllQuoted(listing)
    requires i < |listing| && LastWithKey(listing, i)
    ensures listing[i].key in Index(listing)
    ensures Index(listing)[listing[i].key] == Unquote(listing[i].etag)
  {
    var n := |listing| - 1;
    if i < n {
      var prefix := listing[..n];
      assert listing[n].key != listing[i].key;
      assert LastWithKey(prefix, i) by {
        forall j | i < j < |prefix| ensures prefix[j].key != prefix[i].key {
          assert prefix[j] == listing[j];
        }
      }
      IndexLastWins(prefix, i);
    }
  }

  /** A listing that names each key once indexes to its own contents. */
  lemma IndexOfEnumeration(listing: seq<RemoteObject>, objects: map<string, StoredObject>)
    requires Enumerates(listing, objects)
    requires AllQuoted(listing)
    ensures forall k | k in objects :: Quoted(objects[k].etag)
    ensures Index(listing) == map k | k in objects :: Unquote(objects[k].etag)
  {
    IndexKeys(listing);
    forall k | k in objects
      ensures Quoted(objects[k].etag) && k in Index(listing) && Index(listing)[k] == Unquote(objects[k].etag)
    {
      assert k in KeysOf(listing);
      var i :| 0 <= i < |listing| && listing[i].key == k;
      IndexLastWins(listing, i);
    }
  }

  /** Lines 80-86: builds the dictionary of published items, failing as
      line 84 does on the first ETag that does not parse; an ETag parses
      here when it is quoted. */
  method BuildIndex(listing: seq<RemoteObject>) returns (out: Outcome, published: map<string, string>)
    ensures out.Pass? <==> AllQuoted(listing)
    ensures out.Pass? ==> published == Index(listing)
    ensures out.Fail? ==> exists i | 0 <= i < |listing| :: AllQuoted(listing[..i]) && !Quoted(listing[i].etag) && out.error == BadETag(listing[i].key)
  {
    published := map[];
    var i := 0;
    while i < |listing|
      invariant 0 <= i <= |listing|
      invariant AllQuoted(listing[..i])
      invariant published == Index(listing[..i])
    {
      var entry := listing[i];
      if !Quoted(entry.etag) {
        out := Fail(BadETag(entry.key));
        return;
      }
      assert listing[..i + 1][..i] == listing[..i];
      published := published[entry.key := Unquote(entry.etag)];
      i := i + 1;
    }
    assert listing[..|listing|] == listing;
    out := Pass;
  }

  function Paths(files: seq<LocalFile>): set<string>
  {
    set i | 0 <= i < |files| :: files[i].path
  }

  predicate UniquePaths(files: seq<LocalFile>)
  {
    forall i, j | 0 <= i < j < |files| :: files[i].path != files[j].path
  }

  /** What one file contributes, judged against the dictionary as it
      stands: an add when its key is missing, an update when the
      fingerprints differ, nothing when they agree. */
  function Classify(f: LocalFile, published: map<string, string>): seq<Op>
  {
    if f.path !in published then [Add(f.path, f)]
    else if f.hash16 != published[f.path] then [Update(f.path, f)]
    else []
  }

  /** Lines 90-102: the files in order, each one's key dropped from the
      dictionary once it has been looked at. */
  function Changes(files: seq<LocalFile>, published: map<string, string>): seq<Op>
  {
    if files == [] then []
    else Classify(files[0], published) + Changes(files[1..], published - {files[0].path})
  }

  /** Reference definition: every file judged against the dictionary as the
      listing built it, results concatenated in file order. */
  function PerFile(files: seq<LocalFile>, published: map<string, string>): seq<Op>
  {
    if files == [] then []
    else Classify(files[0], published) + PerFile(files[1..], published)
  }

  /** The keys lines 106-108 turn into deletes. */
  function Leftover(files: seq<LocalFile>, published: map<string, string>): set<string>
  {
    published.Keys - Paths(files)
  }

  /** `ds` deletes every key of `keys` once and nothing else, in any order. */
  predicate DeletesExactly(ds: seq<Op>, keys: set<string>)
  {
    && (forall i | 0 <= i < |ds| :: ds[i].Delete? && ds[i].key in keys)
    && (forall i, j | 0 <= i < j < |ds| :: ds[i].key != ds[j].key)
    && (forall k | k in keys :: Delete(k) in ds)
  }

  /** `ops` is an operation list `sync` can build from `files` and the
      dictionary `published`: the adds and updates, then the leftover keys'
      deletes in whatever order the dictionary enumerates them. */
  predicate Reconciles(files: seq<LocalFile>, published: map<string, string>, ops: seq<Op>)
  {
    var c := Changes(files, published);
    |c| <= |ops| && ops[..|c|] == c && DeletesExactly(ops[|c|..], Leftover(files, published))
  }

  lemma ChangesAt(files: seq<LocalFile>, i: nat, published: map<string, string>)
    requires i < |files|
    ensures Changes(files[i..], published) == Classify(files[i], published) + Changes(files[i + 1..], published - {files[i].path})
  {
    assert files[i..][1..] == files[i + 1..];
  }

  /** One turn of the walk in VisitFiles keeps its loop invariant. */
  lemma WalkStep(files: seq<LocalFile>, i: nat, published0: map<string, string>, done: seq<Op>, published: map<string, string>)
    requires i < |files|
    requires done + Changes(files[i..], published) == Changes(files, published0)
    ensures (done + Classify(files[i], published)) + Changes(files[i + 1..], published - {files[i].path}) == Changes(files, published0)
  {
    ChangesAt(files, i, published);
    assert done + (Classify(files[i], published) + Changes(files[i + 1..], published - {files[i].path}))
        == (done + Classify(files[i], published)) + Changes(files[i + 1..], published - {files[i].path});
  }

  lemma PathsSnoc(files: seq<LocalFile>, i: nat)
    requires i < |files|
    ensures Paths(files[..i + 1]) == Paths(files[..i]) + {files[i].path}
  {
    assert forall j | 0 <= j < i :: files[..i + 1][j] == files[..i][j];
    assert files[..i + 1][i] == files[i];
  }

  lemma RemainingSnoc(files: seq<LocalFile>, i: nat, published0: map<string, string>)
    requires i < |files|
    ensures published0 - Paths(files[..i + 1]) == (published0 - Paths(files[..i])) - {files[i].path}
  {
    PathsSnoc(files, i);
  }

  lemma DeletesExactlyExtend(ds: seq<Op>, keys: set<string>, k: string)
    requires DeletesExactly(ds, keys) && k !in keys
    ensures DeletesExactly(ds + [Delete(k)], keys + {k})
  {
    var ds' := ds + [Delete(k)];
    assert forall i | 0 <= i < |ds| :: ds'[i] == ds[i];
    forall k' | k' in keys + {k} ensures Delete(k') in ds' {
      if k' != k {
        var i :| 0 <= i < |ds| && ds[i] == Delete(k');
        assert ds'[i] == Delete(k');
      } else {
        assert ds'[|ds|] == Delete(k);
      }
    }
  }

  /** Lines 90-102: walks the files in order, emitting their adds and
      updates and dropping every visited key from the dictionary. */
  method VisitFiles(files: seq<LocalFile>, published0: map<string, string>) returns (ops: seq<Op>, published: map<string, string>)
    ensures ops == Changes(files, published0)
    ensures published == published0 - Paths(files)
  {
    published := published0;
    ops := [];
    for i := 0 to |files|
      invariant ops + Changes(files[i..], published) == Changes(files, published0)
      invariant published == published0 - Paths(files[..i])
    {
      var file := files[i];
      var key := file.path;
      RemainingSnoc(files, i, published0);
      ghost var was, before := ops, published;
      if key !in published {
        ops := ops + [Add(key, file)];
        published := published - {key};
      } else if file.hash16 != published[key] {
        ops := ops + [Update(key, file)];
        published := published - {key};
      } else {
        published := published - {key};
      }
      assert ops == was + Classify(file, before) && published == before - {key};
      WalkStep(files, i, published0, was, before);
    }
    assert files[|files|..] == [];
    assert files[..|files|] == files;
  }

  /** Lines 88-108: the files' adds and updates, then a delete for every
      key the walk left in the dictionary. */
  method Diff(files: seq<LocalFile>, published0: map<string, string>) returns (ops: seq<Op>)
    ensures Reconciles(files, published0, ops)
  {
    var published;
    ops, published := VisitFiles(files, published0);
    ghost var changes := ops;
    var pending := published.Keys;
    while pending != {}
      invariant pending <= published.Keys
      invariant |changes| <= |ops| && ops[..|changes|] == changes
      invariant DeletesExactly(ops[|changes|..], published.Keys - pending)
      decreases pending
    {
      var key :| key in pending;
      ghost var before := ops;
      DeletesExactlyExtend(ops[|changes|..], published.Keys - pending, key);
      ops := ops + [Delete(key)];
      assert ops[|changes|..] == before[|changes|..] + [Delete(key)];
      assert published.Keys - (pending - {key}) == (published.Keys - pending) + {key};
      pending := pending - {key};
    }
  }
}
