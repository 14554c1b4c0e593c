/** What the operation list of `sync` promises, proved about the functions
    that specify it: every file judged once against the listing, deletes
    exactly for the keys no file has, no key touched twice, adds and updates
    before deletes, and carrying the list out leaves the bucket holding
    exactly the local files' fingerprints. Most facts need the local paths to
    be unique, as `sync`'s callers guarantee. */
module DiffProperties {
  import opened Storage
  import opened Reconcile

  lemma PathsCons(files: seq<LocalFile>)
    requires files != []
    ensures Paths(files) == {files[0].path} + Paths(files[1..])
  {
    var rest := files[1..];
    assert forall i | 0 <= i < |rest| :: rest[i] == files[i + 1];
    forall p | p in Paths(files) ensures p in {files[0].path} + Paths(rest) {
      var i :| 0 <= i < |files| && files[i].path == p;
      if i > 0 {
        assert rest[i - 1].path == p;
      }
    }
  }

  lemma UniqueRest(files: seq<LocalFile>)
    requires files != [] && UniquePaths(files)
    ensures UniquePaths(files[1..]) && files[0].path !in Paths(files[1..])
  {
    var rest := files[1..];
    assert forall i | 0 <= i < |rest| :: rest[i] == files[i + 1];
  }

  lemma {:induction false} PerFileIgnoresUnvisited(files: seq<LocalFile>, published: map<string, string>, p: string)
    requires p !in Paths(files)
    ensures PerFile(files, published - {p}) == PerFile(files, published)
  {
    if files != [] {
      PathsCons(files);
      PerFileIgnoresUnvisited(files[1..], published, p);
    }
  }

  /** With unique paths, dropping visited keys while walking changes
      nothing: the walk of lines 90-102 judges each file against the
      dictionary as the listing built it. */
  lemma {:induction false} ChangesArePerFile(files: seq<LocalFile>, published: map<string, string>)
    requires UniquePaths(files)
    ensures Changes(files, published) == PerFile(files, published)
  {
    if files != [] {
      UniqueRest(files);
      ChangesArePerFile(files[1..], published - {files[0].path});
      PerFileIgnoresUnvisited(files[1..], published, files[0].path);
    }
  }

  /** Every operation of the reference list comes from one file, with that
      file's path as key. */
  lemma {:induction false} PerFileFromFiles(files: seq<LocalFile>, published: map<string, string>)
    ensures forall op | op in PerFile(files, published) :: !op.Delete? && op.file in files && op.key == op.file.path
  {
    if files != [] {
      PerFileFromFiles(files[1..], published);
      assert forall f | f in files[1..] :: f in files;
    }
  }

  /** Every operation of the reference list carries the path of one of the files. */
  lemma {:induction false} PerFileKeys(files: seq<LocalFile>, published: map<string, string>, op: Op)
    requires op in PerFile(files, published)
    ensures op.key in Paths(files)
  {
    if files != [] {
      PathsCons(files);
      if op !in Classify(files[0], published) {
        PerFileKeys(files[1..], published, op);
      }
    }
  }

  /** With unique paths, an operation carrying file `i`'s path is in the
      reference list exactly when file `i`'s classification produced it. */
  lemma {:induction false} ClassifiedAt(files: seq<LocalFile>, published: map<string, string>, i: nat, op: Op)
    requires UniquePaths(files) && i < |files| && op.key == files[i].path
    ensures op in PerFile(files, published) <==> op in Classify(files[i], published)
  {
    var rest := files[1..];
    UniqueRest(files);
    assert PerFile(files, published) == Classify(files[0], published) + PerFile(rest, published);
    if i == 0 {
      if op in PerFile(rest, published) {
        PerFileKeys(rest, published, op);
      }
    } else {
      assert rest[i - 1] == files[i];
      assert files[0].path != files[i].path;
      ClassifiedAt(rest, published, i - 1, op);
    }
  }

  lemma {:induction false} PerFileDistinct(files: seq<LocalFile>, published: map<string, string>)
    requires UniquePaths(files)
    ensures forall i, j | 0 <= i < j < |PerFile(files, published)| :: PerFile(files, published)[i].key != PerFile(files, published)[j].key
  {
    if files != [] {
      var f, rest := files[0], files[1..];
      var c, r := Classify(f, published), PerFile(rest, published);
      var all := PerFile(files, published);
      assert all == c + r;
      UniqueRest(files);
      PerFileDistinct(rest, published);
      forall i, j | 0 <= i < j < |all| ensures all[i].key != all[j].key {
        if i < |c| {
          assert all[i].key == f.path;
          assert all[j] == r[j - |c|];
          PerFileKeys(rest, published, r[j - |c|]);
        } else {
          assert all[i] == r[i - |c|] && all[j] == r[j - |c|];
        }
      }
    }
  }

  /** Lines 90-101: with unique paths, a file gets an add exactly when its
      key is not listed, an update exactly when its listed fingerprint
      differs, and so nothing when the fingerprints agree. */
  lemma FileClassifiedOnce(files: seq<LocalFile>, published: map<string, string>, i: nat)
    requires UniquePaths(files) && i < |files|
    ensures Add(files[i].path, files[i]) in Changes(files, published) <==> files[i].path !in published
    ensures Update(files[i].path, files[i]) in Changes(files, published) <==>
      files[i].path in published && published[files[i].path] != files[i].hash16
  {
    var f := files[i];
    ChangesArePerFile(files, published);
    ClassifiedAt(files, published, i, Add(f.path, f));
    ClassifiedAt(files, published, i, Update(f.path, f));
  }

  /** Lines 90-102: every add and update comes from one file and carries its
      path; with unique paths no key gets two of them. */
  lemma ChangesFromFiles(files: seq<LocalFile>, published: map<string, string>)
    requires UniquePaths(files)
    ensures forall op | op in Changes(files, published) :: !op.Delete? && op.file in files && op.key == op.file.path
    ensures forall i, j | 0 <= i < j < |Changes(files, published)| :: Changes(files, published)[i].key != Changes(files, published)[j].key
  {
    ChangesArePerFile(files, published);
    PerFileFromFiles(files, published);
    PerFileDistinct(files, published);
  }

  /** The operation list holds a file's add or update exactly when the walk
      produced it. */
  lemma FileOperation(files: seq<LocalFile>, published: map<string, string>, ops: seq<Op>, i: nat)
    requires UniquePaths(files) && Reconciles(files, published, ops) && i < |files|
    ensures Add(files[i].path, files[i]) in ops <==> files[i].path !in published
    ensures Update(files[i].path, files[i]) in ops <==>
      files[i].path in published && published[files[i].path] != files[i].hash16
  {
    var c := Changes(files, published);
    var d := ops[|c|..];
    assert ops == c + d;
    FileClassifiedOnce(files, published, i);
    assert Add(files[i].path, files[i]) !in d && Update(files[i].path, files[i]) !in d;
  }

  /** Lines 105-108: a key is deleted exactly when it is listed and no local
      file has it; in particular no local path is ever deleted. */
  lemma DeletesOfLeftovers(files: seq<LocalFile>, published: map<string, string>, ops: seq<Op>, k: string)
    requires Reconciles(files, published, ops)
    ensures Delete(k) in ops <==> k in published && k !in Paths(files)
  {
    var c := Changes(files, published);
    var d := ops[|c|..];
    assert ops == c + d;
    ChangesNoDeletes(files, published);
    DeletesIn(d, Leftover(files, published), k);
  }

  lemma DeletesIn(d: seq<Op>, keys: set<string>, k: string)
    requires DeletesExactly(d, keys)
    ensures Delete(k) in d <==> k in keys
  {
    if Delete(k) in d {
      var i :| 0 <= i < |d| && d[i] == Delete(k);
    }
  }

  /** With unique paths no key appears in two operations. */
  lemma OperationKeysDistinct(files: seq<LocalFile>, published: map<string, string>, ops: seq<Op>)
    requires UniquePaths(files) && Reconciles(files, published, ops)
    ensures forall i, j | 0 <= i < j < |ops| :: ops[i].key != ops[j].key
  {
    var c := Changes(files, published);
    var d := ops[|c|..];
    ChangesFromFiles(files, published);
    forall i, j | 0 <= i < j < |ops| ensures ops[i].key != ops[j].key {
      if j < |c| {
        assert ops[i] == c[i] && ops[j] == c[j];
      } else if i < |c| {
        assert ops[i] == c[i] && ops[i] in c && ops[j] == d[j - |c|];
        var k :| 0 <= k < |files| && files[k] == ops[i].file;
      } else {
        assert ops[i] == d[i - |c|] && ops[j] == d[j - |c|];
      }
    }
  }

  /** Lines 90-108: every add and update comes before every delete. */
  lemma DeletesLast(files: seq<LocalFile>, published: map<string, string>, ops: seq<Op>)
    requires Reconciles(files, published, ops)
    ensures forall i, j | 0 <= i < j < |ops| && ops[i].Delete? :: ops[j].Delete?
  {
    var c := Changes(files, published);
    var d := ops[|c|..];
    ChangesNoDeletes(files, published);
    forall i, j | 0 <= i < j < |ops| && ops[i].Delete? ensures ops[j].Delete? {
      assert ops[j] == d[j - |c|];
    }
  }

  lemma {:induction false} ChangesNoDeletes(files: seq<LocalFile>, published: map<string, string>)
    ensures forall op | op in Changes(files, published) :: !op.Delete?
  {
    if files != [] {
      ChangesNoDeletes(files[1..], published - {files[0].path});
    }
  }

  /** The remote key-to-fingerprint view after one operation: a put records
      the file's fingerprint under its key, a delete drops the key. */
  function Carry(remote: map<string, string>, op: Op): map<string, string>
  {
    match op
    case Add(k, f) => remote[k := f.hash16]
    case Update(k, f) => remote[k := f.hash16]
    case Delete(k) => remote - {k}
  }

  function Replay(remote: map<string, string>, ops: seq<Op>): map<string, string>
    decreases |ops|
  {
    if ops == [] then remote else Replay(Carry(remote, ops[0]), ops[1..])
  }

  /** The local directory as a key-to-fingerprint map. */
  function Fingerprints(files: seq<LocalFile>): map<string, string>
  {
    if files == [] then map[] else Fingerprints(files[1..])[files[0].path := files[0].hash16]
  }

  lemma {:induction false} FingerprintsOf(files: seq<LocalFile>)
    requires UniquePaths(files)
    ensures Fingerprints(files).Keys == Paths(files)
    ensures forall i | 0 <= i < |files| :: Fingerprints(files)[files[i].path] == files[i].hash16
  {
    if files != [] {
      PathsCons(files);
      UniqueRest(files);
      FingerprintsOf(files[1..]);
      forall i | 0 < i < |files| ensures Fingerprints(files)[files[i].path] == files[i].hash16 {
        assert files[i] == files[1..][i - 1];
      }
    }
  }

  lemma {:induction false} ReplayAppend(remote: map<string, string>, a: seq<Op>, b: seq<Op>)
    ensures Replay(remote, a + b) == Replay(Replay(remote, a), b)
    decreases |a|
  {
    if a == [] {
      assert a + b == b;
    } else {
      assert (a + b)[1..] == a[1..] + b;
      ReplayAppend(Carry(remote, a[0]), a[1..], b);
    }
  }

  lemma ReplayClassify(f: LocalFile, remote: map<string, string>, published: map<string, string>)
    requires (f.path in remote <==> f.path in published) && (f.path in published ==> remote[f.path] == published[f.path])
    ensures Replay(remote, Classify(f, published)) == remote[f.path := f.hash16]
  {
    if f.path in published && f.hash16 == published[f.path] {
      assert remote[f.path := f.hash16] == remote;
    }
  }

  lemma OverrideCommutes(m: map<string, string>, k: string, v: string, n: map<string, string>)
    requires k !in n
    ensures m[k := v] + n == m + n[k := v]
  {
  }

  /** Carrying out the adds and updates overwrites the files' keys with their
      fingerprints, whatever the walk's dictionary had dropped, as long as it
      agreed with the remote view on the keys still to come. */
  lemma {:induction false} ReplayChanges(files: seq<LocalFile>, remote: map<string, string>, published: map<string, string>)
    requires UniquePaths(files)
    requires forall p | p in Paths(files) :: (p in remote <==> p in published) && (p in published ==> remote[p] == published[p])
    ensures Replay(remote, Changes(files, published)) == remote + Fingerprints(files)
  {
    if files != [] {
      var f, rest := files[0], files[1..];
      PathsCons(files);
      UniqueRest(files);
      FingerprintsOf(rest);
      var c := Classify(f, published);
      ReplayAppend(remote, c, Changes(rest, published - {f.path}));
      var next := remote[f.path := f.hash16];
      ReplayClassify(f, remote, published);
      ReplayChanges(rest, next, published - {f.path});
      OverrideCommutes(remote, f.path, f.hash16, Fingerprints(rest));
    }
  }

  /** Dropping the first delete of an exact delete list leaves an exact
      delete list for the other keys. */
  lemma DeletesExactlyRest(ds: seq<Op>, keys: set<string>)
    requires ds != [] && DeletesExactly(ds, keys)
    ensures ds[0] == Delete(ds[0].key) && ds[0].key in keys
    ensures DeletesExactly(ds[1..], keys - {ds[0].key})
  {
    var k := ds[0].key;
    var rest := ds[1..];
    assert forall i | 0 <= i < |rest| :: rest[i] == ds[i + 1];
    forall k' | k' in keys - {k} ensures Delete(k') in rest {
      var i :| 0 <= i < |ds| && ds[i] == Delete(k');
      assert rest[i - 1] == Delete(k');
    }
  }

  lemma {:induction false} ReplayDeletes(remote: map<string, string>, ds: seq<Op>, keys: set<string>)
    requires DeletesExactly(ds, keys)
    ensures Replay(remote, ds) == remote - keys
  {
    if ds != [] {
      var k := ds[0].key;
      DeletesExactlyRest(ds, keys);
      assert Carry(remote, ds[0]) == remote - {k};
      ReplayDeletes(remote - {k}, ds[1..], keys - {k});
      assert (remote - {k}) - (keys - {k}) == remote - keys;
    }
  }

  /** The number of deletes is the number of keys left over. */
  lemma {:induction false} DeleteCount(ds: seq<Op>, keys: set<string>)
    requires DeletesExactly(ds, keys)
    ensures |ds| == |keys|
  {
    if ds == [] {
      assert keys == {};
    } else {
      var k := ds[0].key;
      DeletesExactlyRest(ds, keys);
      DeleteCount(ds[1..], keys - {k});
    }
  }

  /** Lines 73-74: the local directory is authoritative. Carrying out an
      operation list `sync` builds turns the remote view into exactly the
      local files' paths, each with its fingerprint. */
  lemma Converges(files: seq<LocalFile>, published: map<string, string>, ops: seq<Op>)
    requires UniquePaths(files) && Reconciles(files, published, ops)
    ensures Replay(published, ops) == Fingerprints(files)
  {
    var c := Changes(files, published);
    var d := ops[|c|..];
    assert ops == c + d;
    ReplayAppend(published, c, d);
    ReplayChanges(files, published, published);
    ReplayDeletes(published + Fingerprints(files), d, Leftover(files, published));
    FingerprintsOf(files);
    OverwriteThenDrop(published, Fingerprints(files));
  }

  lemma OverwriteThenDrop(published: map<string, string>, local: map<string, string>)
    ensures (published + local) - (published.Keys - local.Keys) == local
  {
  }

  /** Lines 112 and 143-144: nothing is put or deleted exactly when the
      remote view already equals the local files' fingerprints; so a second
      run after a complete one finds nothing to do. */
  lemma NoOperationsIffInSync(files: seq<LocalFile>, published: map<string, string>, ops: seq<Op>)
    requires UniquePaths(files) && Reconciles(files, published, ops)
    ensures ops == [] <==> published == Fingerprints(files)
  {
    if ops == [] {
      Converges(files, published, ops);
    }
    if published == Fingerprints(files) {
      FingerprintsOf(files);
      ChangesFromFiles(files, published);
      var c := Changes(files, published);
      if c != [] {
        assert c[0] in c;
        var k :| 0 <= k < |files| && files[k] == c[0].file;
        FileClassifiedOnce(files, published, k);
        assert false;
      }
      assert Leftover(files, published) == {};
      DeleteCount(ops[|c|..], Leftover(files, published));
    }
  }

  /** The case of `PerFileInFileOrder` where entry `p` comes from the first file. */
  lemma HeadFirst(files: seq<LocalFile>, published: map<string, string>, p: nat, q: nat, i: nat, j: nat)
    requires UniquePaths(files)
    requires p < q < |PerFile(files, published)| && i < |files| && j < |files|
    requires p < |Classify(files[0], published)|
    requires PerFile(files, published)[p].key == files[i].path
    requires PerFile(files, published)[q].key == files[j].path
    ensures i < j
  {
    var rest := files[1..];
    var h := Classify(files[0], published);
    UniqueRest(files);
    PerFileAt(files, published, p);
    PerFileAt(files, published, q);
    PerFileKeys(rest, published, PerFile(rest, published)[q - |h|]);
  }

  /** The reference list follows the files' order: the operation at `p`
      comes from file `i`, the one at `q` from file `j`. */
  lemma {:induction false} PerFileInFileOrder(files: seq<LocalFile>, published: map<string, string>, p: nat, q: nat, i: nat, j: nat)
    requires UniquePaths(files)
    requires p < q < |PerFile(files, published)| && i < |files| && j < |files|
    requires PerFile(files, published)[p].key == files[i].path
    requires PerFile(files, published)[q].key == files[j].path
    ensures i < j
  {
    var rest := files[1..];
    var h := Classify(files[0], published);
    if p < |h| {
      HeadFirst(files, published, p, q, i, j);
    } else {
      UniqueRest(files);
      PerFileAt(files, published, p);
      PerFileAt(files, published, q);
      var r := PerFile(rest, published);
      var p', q' := p - |h|, q - |h|;
      assert p' < q' < |r|;
      assert PerFile(files, published)[p] == r[p'] && PerFile(files, published)[q] == r[q'];
      PerFileKeys(rest, published, r[p']);
      PerFileKeys(rest, published, r[q']);
      assert files[i].path in Paths(rest) && files[j].path in Paths(rest);
      assert i != 0 && j != 0;
      assert r[p'].key == rest[i - 1].path && r[q'].key == rest[j - 1].path;
      PerFileInFileOrder(rest, published, p', q', i - 1, j - 1);
    }
  }

  /** Entry `p` of the reference list: from the first file's classification,
      with its path, or from the rest of the files. */
  lemma PerFileAt(files: seq<LocalFile>, published: map<string, string>, p: nat)
    requires p < |PerFile(files, published)|
    ensures var h := Classify(files[0], published);
      && (p < |h| ==> PerFile(files, published)[p].key == files[0].path)
      && |PerFile(files, published)| == |h| + |PerFile(files[1..], published)|
      && (p >= |h| ==> PerFile(files, published)[p] == PerFile(files[1..], published)[p - |h|])
  {
  }

  /** Lines 90-102: the adds and updates come in the order of the files
      they belong to. */
  lemma ChangesInFileOrder(files: seq<LocalFile>, published: map<string, string>)
    requires UniquePaths(files)
    ensures var c := Changes(files, published);
      forall p, q, i, j | 0 <= p < q < |c| && 0 <= i < |files| && 0 <= j < |files| && c[p].key == files[i].path && c[q].key == files[j].path :: i < j
  {
    ChangesArePerFile(files, published);
    var c := Changes(files, published);
    forall p, q, i, j | 0 <= p < q < |c| && 0 <= i < |files| && 0 <= j < |files| && c[p].key == files[i].path && c[q].key == files[j].path
      ensures i < j
    {
      PerFileInFileOrder(files, published, p, q, i, j);
    }
  }

  /** Line 95: a file whose key is not in the dictionary it meets is added;
      the dictionary only loses keys as the walk goes on. */
  lemma {:induction false} MissingPathAdded(files: seq<LocalFile>, published: map<string, string>, j: nat)
    requires j < |files| && files[j].path !in published
    ensures Add(files[j].path, files[j]) in Changes(files, published)
  {
    if j > 0 {
      assert files[1..][j - 1] == files[j];
      MissingPathAdded(files[1..], published - {files[0].path}, j - 1);
    }
  }

  /** Line 95: why paths must be unique. A later file with an already
      visited path is always added again, whatever the listing said, since
      the walk has dropped its key. */
  lemma {:induction false} RepeatedPathAddedAgain(files: seq<LocalFile>, published: map<string, string>, i: nat, j: nat)
    requires i < j < |files| && files[i].path == files[j].path
    ensures Add(files[j].path, files[j]) in Changes(files, published)
  {
    assert files[1..][j - 1] == files[j];
    if i == 0 {
      MissingPathAdded(files[1..], published - {files[0].path}, j - 1);
    } else {
      assert files[1..][i - 1] == files[i];
      RepeatedPathAddedAgain(files[1..], published - {files[0].path}, i - 1, j - 1);
    }
  }

  /** Two files with one path: the second is added on top of whatever the
      first contributes, so the walk emits two operations for one key
      whenever the first file was added or updated. */
  lemma SamePathTwice(f: LocalFile, g: LocalFile, published: map<string, string>)
    requires f.path == g.path
    ensures Changes([f, g], published) == Classify(f, published) + [Add(g.path, g)]
  {
    var rest := published - {f.path};
    assert [f, g][1..] == [g];
    assert [g][1..] == [];
    assert g.path !in rest;
    assert Changes([g], rest) == [Add(g.path, g)];
  }

  function ExampleListing(): seq<RemoteObject>
  {
    [RemoteObject("a.html", "\"H1\""), RemoteObject("c.html", "\"H9\"")]
  }

  lemma ExampleIndex()
    ensures AllQuoted(ExampleListing())
    ensures Index(ExampleListing()) == map["a.html" := "H1", "c.html" := "H9"]
  {
    var listing := ExampleListing();
    assert listing[..1][..0] == [];
    assert Unquote("\"H1\"") == "H1" && Unquote("\"H9\"") == "H9";
    assert Index(listing[..1]) == map["a.html" := "H1"];
  }

  lemma ExampleChanges(a: LocalFile, b: LocalFile)
    requires a.path == "a.html" && a.hash16 == "H1" && b.path == "b.html"
    ensures Changes([a, b], map["a.html" := "H1", "c.html" := "H9"]) == [Add("b.html", b)]
    ensures Leftover([a, b], map["a.html" := "H1", "c.html" := "H9"]) == {"c.html"}
  {
    var published := map["a.html" := "H1", "c.html" := "H9"];
    var files := [a, b];
    assert files[1..] == [b] && files[1..][1..] == [];
    assert Classify(a, published) == [];
    var rest := published - {"a.html"};
    assert Changes([b], rest) == [Add("b.html", b)];
    assert Paths(files) == {"a.html", "b.html"} by {
      assert files[0].path == "a.html" && files[1].path == "b.html";
    }
  }

  /** A worked example: `a.html` is published with the same fingerprint,
      `b.html` is new, `c.html` is no longer local. The only operation list
      is an add of `b.html` followed by a delete of `c.html`. */
  lemma AddAndDeleteExample(a: LocalFile, b: LocalFile, ops: seq<Op>)
    requires a.path == "a.html" && a.hash16 == "H1" && b.path == "b.html"
    requires AllQuoted(ExampleListing()) && Reconciles([a, b], Index(ExampleListing()), ops)
    ensures ops == [Add("b.html", b), Delete("c.html")]
  {
    ExampleIndex();
    ExampleChanges(a, b);
    var c := [Add("b.html", b)];
    var d := ops[|c|..];
    DeleteCount(d, {"c.html"});
    assert d == [Delete("c.html")];
    assert ops == c + d;
  }

  /** With no local files, every published key is deleted and nothing else happens. */
  lemma NoLocalFiles(published: map<string, string>, ops: seq<Op>)
    requires Reconciles([], published, ops)
    ensures DeletesExactly(ops, published.Keys)
  {
    assert Paths([]) == {};
    assert ops[0..] == ops;
  }
}
