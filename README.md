# Static-site bucket tasks, modelled in Dafny

This project models the deployment tasks of a static website hosted in an
object-storage bucket (`tasks/bucket.mjs`). The file has two parts:

- **The bucket lifecycle.** `check` asks whether each configured bucket
  exists. `deploy` makes each bucket a public website: it creates a missing
  bucket and waits 30 seconds, lifts the public-access block, sets a
  public-read policy, then sets the website or redirect configuration.
  `teardown` empties each bucket, then deletes it. Each task visits the
  buckets in configuration order and stops at the first failure.
- **`sync`, the site reconciler.** The local directory is authoritative.
  `sync` lists the site's bucket, which is the first configured one. It
  builds a dictionary from each key to its unquoted ETag. It walks the local
  files in order: a missing key becomes an add, a different fingerprint
  becomes an update, and every visited key is dropped from the dictionary.
  Every key still in the dictionary becomes a delete. The operations are
  then carried out one request at a time. Adds and updates upload with the
  file's base64 digest, its content type and a fixed cache policy.

The storage service is abstract (module `Storage`):

- A request is a `Call` value; the service's state is a map from bucket
  names to bucket states.
- The service rejects a request when it is in a fixed set of refused
  requests (network, permission, throttling), when it needs a bucket that
  does not exist, or when it deletes a bucket that still holds objects.
- The client object `Store` holds the state and the trace of issued
  requests.

Every task is an imperative method on a `Store`. Its contract says that the
client's new state and trace are those of a pure run (`CheckAll`,
`DeployAll`, `TeardownAll`, `Exec` of the sync's requests). The lemmas then
state what those runs achieve:

- every bucket is left public after a deploy that succeeds;
- every bucket is gone after a teardown that succeeds;
- nothing outside the configured buckets changes;
- `check` changes nothing and stops at the first bucket that is not ready;
- the bucket publishes exactly the local files after a sync whose requests
  all succeed;
- a second sync of the same files finds nothing to do.

Modules: `Storage` (`storage.dfy`), `Reconcile` (`reconcile.dfy`),
`DiffProperties` (`diff_properties.dfy`), `Lifecycle` (`lifecycle.dfy`),
`SiteSync` (`sync.dfy`).

## Model

| member | source | states |
|---|---|---|
| Storage.Exec | tasks/bucket.mjs:58-64 | Awaited requests are issued one at a time and stop at the first rejection. The issued requests are a prefix of the plan, all of it on success, and a failure names the last request issued. |
| Storage.Store.Request | tasks/bucket.mjs:62 | One request changes the client's state as the service's answer does, and appends the request to the trace. |
| Storage.Store.Issue | tasks/bucket.mjs:31-46 | Issuing the next request of a planned run either ends the run with the service's rejection, or leaves the rest of the plan pending. |
| Storage.Store.HasBucket | tasks/bucket.mjs:21 | The existence question answers true exactly when the bucket exists, as the next request of a planned run. |
| Storage.Store.ListObjects | tasks/bucket.mjs:81 | On success the listing names every object of the bucket once, with its stored ETag. |
| Reconcile.QuoteRoundTrip | tasks/bucket.mjs:84 | Unquoting an ETag the service wrote gives back the fingerprint it quoted. |
| Reconcile.UnquoteRoundTrip | tasks/bucket.mjs:84 | A quoted ETag is the quotation of its unquoted text. |
| Reconcile.IndexKeys | tasks/bucket.mjs:80-86 | The dictionary of published items holds exactly the listed keys. |
| Reconcile.IndexLastWins | tasks/bucket.mjs:82-86 | A key repeated in the listing holds the ETag of its last entry. |
| Reconcile.IndexOfEnumeration | tasks/bucket.mjs:80-86 | Indexing a listing that enumerates a bucket gives each object's unquoted ETag. |
| Reconcile.BuildIndex | tasks/bucket.mjs:80-86 | The loop succeeds iff every ETag is quoted, and then yields the dictionary. Otherwise it fails on the first unquoted entry, naming its key. |
| Reconcile.VisitFiles | tasks/bucket.mjs:90-102 | The file walk emits the threaded adds and updates, and leaves the dictionary minus every visited path. |
| Reconcile.Diff | tasks/bucket.mjs:88-108 | The operations are the files' adds and updates, followed by exactly one delete per leftover key, in any order. |
| DiffProperties.ChangesArePerFile | tasks/bucket.mjs:90-102 | With unique paths, dropping visited keys changes nothing: each file is judged against the dictionary as listed. |
| DiffProperties.FileClassifiedOnce | tasks/bucket.mjs:93-100 | A file is added iff its key is unlisted, and updated iff it is listed with another fingerprint. So equal fingerprints give no operation. |
| DiffProperties.ChangesFromFiles | tasks/bucket.mjs:90-102 | Every add and update comes from a local file and carries its path, and no key gets two of them. |
| DiffProperties.FileOperation | tasks/bucket.mjs:88-108 | In the full operation list, a file's add or update appears exactly in the cases above. |
| DiffProperties.DeletesOfLeftovers | tasks/bucket.mjs:105-108 | A key is deleted iff it is listed and no local file has it, even when local paths repeat. |
| DiffProperties.OperationKeysDistinct | tasks/bucket.mjs:88-108 | With unique paths no key appears in two operations. |
| DiffProperties.DeletesLast | tasks/bucket.mjs:90-108 | No add or update comes after a delete. |
| DiffProperties.ChangesNoDeletes | tasks/bucket.mjs:90-102 | The file walk emits no deletes. |
| DiffProperties.ChangesInFileOrder | tasks/bucket.mjs:90-102 | Adds and updates appear in the order of their local files. |
| DiffProperties.PerFileInFileOrder | tasks/bucket.mjs:90-102 | The same order holds for the reference list, proved by induction on the files. |
| DiffProperties.MissingPathAdded | tasks/bucket.mjs:92-96 | A file whose key is not in the dictionary it meets is added, wherever it stands in the list. |
| DiffProperties.RepeatedPathAddedAgain | tasks/bucket.mjs:95 | In any file list, a later file with an already visited path is always added, because the walk dropped its key. This is why paths must be unique. |
| DiffProperties.SamePathTwice | tasks/bucket.mjs:90-102 | Two files with one path give the first file's operation followed by an add of the second. |
| DiffProperties.DeleteCount | tasks/bucket.mjs:106-108 | There are as many deletes as leftover keys. |
| DiffProperties.ReplayChanges | tasks/bucket.mjs:113-137 | Carrying out the adds and updates overwrites each local path with its fingerprint. |
| DiffProperties.ReplayDeletes | tasks/bucket.mjs:138-141 | Carrying out the deletes removes exactly the leftover keys. |
| DiffProperties.Converges | tasks/bucket.mjs:73-74 | Replaying the operations on the published items gives exactly the local files' fingerprints. |
| DiffProperties.NoOperationsIffInSync | tasks/bucket.mjs:112 | There are no operations iff the published items already equal the local fingerprints. |
| DiffProperties.AddAndDeleteExample | tasks/bucket.mjs:88-108 | Example: local a.html(H1) and b.html against listed a.html "H1" and c.html "H9" give exactly [add b.html, delete c.html]. |
| DiffProperties.NoLocalFiles | tasks/bucket.mjs:105-108 | With no local files every listed key is deleted, and nothing else happens. |
| SiteSync.OneRequestPerOperation | tasks/bucket.mjs:113-141 | There is one request per operation, in order. An add or update puts the body with its base64 digest, content type and the fixed cache policy; a delete deletes the key. |
| SiteSync.ListingIndex | tasks/bucket.mjs:80-86 | A full listing parses iff every stored ETag is quoted, and then indexes to the bucket's published items. |
| SiteSync.CallForStep | tasks/bucket.mjs:114-140 | One operation's request fails only when the service refuses it and touches only the site bucket. On success it moves the published items by that operation and stores the upload's metadata. |
| SiteSync.ApplyReplays | tasks/bucket.mjs:112-142 | The apply loop fails iff the service refuses one of its requests and changes only the site bucket. On success the published items are the replay of the operations. |
| SiteSync.HonestOperations | tasks/bucket.mjs:117-136 | Uploads only carry local files, so their fingerprints are the service's own whenever the files' are. |
| SiteSync.SyncConverges | tasks/bucket.mjs:73-74 | A sync whose requests all succeed leaves the bucket publishing exactly the local files' fingerprints, and no other bucket changed. |
| SiteSync.ResyncIsQuiet | tasks/bucket.mjs:143-144 | After a successful sync, syncing the same files again yields no operations and no requests. |
| SiteSync.RerunRecovers | tasks/bucket.mjs:112-142 | After any apply, including one that failed part-way, the bucket still exists and its ETags are quoted. A rerun meets the service as it is then, with its own refusals. The rerun succeeds iff none of its requests is refused, and then the bucket publishes exactly the local files. |
| SiteSync.Apply | tasks/bucket.mjs:112-142 | The loop issues each operation's request in turn, as the rest of the planned run, stopping at the first rejection. |
| SiteSync.Sync | tasks/bucket.mjs:75-147 | With no buckets it fails and issues nothing. A failed listing ends the sync. An unquoted ETag fails with nothing changed, naming an offending key. Otherwise it issues the listing and then the requests of operations that reconcile the files with the published items. |
| Lifecycle.PolicyNamesItsBucket | tasks/bucket.mjs:32-41 | The public-read policy for one bucket equals the policy for another iff they are the same bucket. |
| Lifecycle.CheckVerdict | tasks/bucket.mjs:5-17 | `check` changes nothing and asks only about the configured buckets, in order. It succeeds iff every bucket exists and is answered for. A failure stops at the first bucket that is not ready, with a not-configured error or the service's rejection. |
| Lifecycle.CheckBucket | tasks/bucket.mjs:5-11 | The client performs exactly `CheckOne`. |
| Lifecycle.Check | tasks/bucket.mjs:13-17 | The client performs exactly `CheckAll`. |
| Lifecycle.DeployPlanShape | tasks/bucket.mjs:20-47 | The existence question comes first and only once. Create-and-wait happens only for a missing bucket. The block is lifted, then the policy is set. The website, or else the redirect, comes last; with neither configured there is no hosting request. The plan has exactly these requests. |
| Lifecycle.ProbeAndCreate | tasks/bucket.mjs:21-26 | When probing and creating succeed the bucket exists: as it was, or fresh and empty with the public-access block on. |
| Lifecycle.Publish | tasks/bucket.mjs:31-41 | When both requests succeed the bucket existed and now is unblocked with the public-read policy naming it, and nothing else about it changed. |
| Lifecycle.Host | tasks/bucket.mjs:43-47 | When the hosting request succeeds the bucket serves the website, or else the redirect, or keeps its hosting when neither is configured. |
| Lifecycle.DeployEffect | tasks/bucket.mjs:20-47 | Deploying leaves every other bucket alone. On success the bucket exists, is unblocked with the public-read policy, keeps its objects and has the configured hosting. |
| Lifecycle.DeployAllIsExec | tasks/bucket.mjs:51-55 | A bucket-by-bucket deploy is one run of all the buckets' plans, stopping at the first rejection. |
| Lifecycle.DeployAllPublishes | tasks/bucket.mjs:51-55 | Only configured buckets change. A successful deploy leaves every configured bucket public. |
| Lifecycle.DeployBucket | tasks/bucket.mjs:20-49 | The client performs exactly `DeployOne`. |
| Lifecycle.WebsiteMode | tasks/bucket.mjs:29-47 | The client finishes the planned deploy run from the public-access step on. |
| Lifecycle.Deploy | tasks/bucket.mjs:51-55 | The client performs exactly `DeployAll`. |
| Lifecycle.TeardownEffect | tasks/bucket.mjs:58-64 | Emptying is requested first. The delete is requested iff emptying succeeded. Teardown succeeds iff the bucket exists and neither request is refused. On success the bucket is gone and nothing else changed. |
| Lifecycle.TeardownAllIsExec | tasks/bucket.mjs:66-70 | A bucket-by-bucket teardown is one run of all the empty/delete pairs, stopping at the first rejection. |
| Lifecycle.TeardownAllRemoves | tasks/bucket.mjs:66-70 | Only configured buckets change. A successful teardown removes every configured bucket. |
| Lifecycle.TeardownBucket | tasks/bucket.mjs:58-64 | The client performs exactly `TeardownOne`. |
| Lifecycle.Teardown | tasks/bucket.mjs:66-70 | The client performs exactly `TeardownAll`. |

## Left out

- Logging (`log`, `logError`): these are output only. tasks/helpers.mjs is not part of this model.
- The 30-second wait is modelled as a `Sleep` request that changes no state; real time is not modelled.
- Asynchrony: every request is awaited before the next, so the model is sequential.
- Exceptions are modelled as a `Fail` outcome that ends the task; their messages are not modelled.
- `sync` with an empty bucket list throws a TypeError when reading `name` of the first bucket. The model returns `Fail(NoSite)` before any request.
- Reconcile.Unquote: `JSON.parse` is modelled as stripping one pair of double quotes. Escape sequences inside an ETag are not decoded, because ETags are hex digests.
- Reconcile.BuildIndex: an ETag parses when it is quoted, which differs from `JSON.parse` both ways. A text such as `"a"b"` is accepted here but rejected by `JSON.parse`. Unquoted JSON values such as `123` or `null` fail here with `BadETag`, but `JSON.parse` accepts them.
- The digests themselves (MD5 in hex and base64) are opaque strings. The service's fingerprint of a body is an uninterpreted function. The service's check of the base64 digest against the body is not modelled.
- Listing pagination is not modelled: the listing is the whole bucket, in an order the service chooses.
- Object keys that clash with JavaScript object-prototype properties are treated as ordinary keys. In the source, a listed key `__proto__` (line 83) replaces the dictionary's prototype instead of adding an entry. The `for…in` at line 106 then also yields that listing entry's own fields (`Key`, `ETag` and so on), so deletes are issued under those names. A local path such as `constructor` finds an inherited value at line 93, so it becomes an update instead of an add.
- The order of deletes follows the dictionary's key order. The model allows any order that deletes each leftover key exactly once.
- The `operations.length > 0` test (line 112) only selects the "nothing to do" log line. The model simply issues no request for an empty list.
- The bucket policy is modelled as a structured value, not as JSON text. Website and redirect settings are passed through unexamined.
- Convergence at the service assumes that a file's `hash16` is the fingerprint the service computes for its content. The tasks rely on this but do not check it.
