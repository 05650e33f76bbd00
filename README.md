# Status-code image cache: request handling

This project models the per-request logic of a small HTTP server that
caches images under three-digit HTTP status codes (`index.js`). For each
request the server takes the key from the request target by dropping its
first character, rejects keys that do not match `^\d{3}$` with 400, and
dispatches on the method: GET serves `<key>.jpg` from the cache directory,
PUT buffers the body chunks and overwrites `<key>.jpg` with them, DELETE
unlinks it, and every other method is a 405. Every outcome is a status, a
content type and either a fixed one-line text or the stored bytes.

The cache directory is a map from file name to bytes (`Handlers.Store`).
The outcomes of file-system calls that can fail for reasons other than a
missing file (a read, the write, an unlink) are inputs (`Handlers.Faults`).
A write that fails leaves at its file name whatever is given as
`leftBehind`; the model claims nothing about partial writes.

Files:

- `http.dfy`: requests, responses and the fixed response texts.
- `cache_key.dfy`: key extraction, the anchored digit pattern, the file name of a key, and a decimal reading of keys used as a reference.
- `request_body.dfy`: the PUT body as chunks pushed in arrival order and joined.
- `handlers.dfy`: each handler and the request callback as functions of the directory and the I/O outcomes, with the lemmas that relate several requests.
- `server.dfy`: class `CacheServer`, whose `store` field the handler methods update in place, each proved equal to the function of `handlers.dfy`.

The origin-fetch fallback that a design description of this system mentions
(fill a GET miss from a remote site and write it back) is not in `index.js`.
The model follows the code: a GET miss is a 404 and nothing is fetched.
The same description has DELETE fail only when no entry exists. The code
answers 404 for any unlink failure, and the model does the same.

## Model

| member | source | states |
|---|---|---|
| CacheKey.KeyOf | index.js:93 | the key is the target minus its first character, verbatim, whatever that character is; an empty target gives an empty key |
| CacheKey.MatchesDigitsIff | index.js:96 | the anchored pattern `\d{n}` accepts exactly the strings of length n made of ASCII digits |
| CacheKey.ValidKeyIff | index.js:96 | a key passes the guard iff it is exactly three ASCII digits |
| CacheKey.EmptyGuardRedundant | index.js:96 | the explicit empty-key test never changes the verdict of the pattern |
| CacheKey.SampleTargets | index.js:93-100 | `/`, `/20`, `/2000`, `/200?x=1`, `/200` plus a newline and the empty target are rejected; `/200` and `/000` pass; `x404` names key `404` |
| CacheKey.KeyFor | index.js:96 | the zero-padded three-digit rendering of any number below 1000 passes the guard |
| CacheKey.CodeOf | index.js:96 | every valid key spells a number below 1000 |
| CacheKey.KeyForCodeOf | index.js:96 | rendering the number a valid key spells gives the key back |
| CacheKey.CodeOfKeyFor | index.js:96 | reading back the rendering of a number below 1000 gives the number |
| CacheKey.ValidKeysAreCodes | index.js:96 | the valid keys are exactly the renderings of 0 to 999, so validity is syntactic only |
| CacheKey.FileNameInjective | index.js:28-30 | two keys name the same `<key>.jpg` file iff they are the same key |
| RequestBody.ConcatLength | index.js:59 | joining the chunks loses and adds no byte |
| RequestBody.ConcatAppend | index.js:59 | joining two runs of chunks is joining each and appending the results |
| RequestBody.ChunkInPlace | index.js:53-59 | chunk i appears unchanged in the joined body, right after the bytes of the chunks before it |
| RequestBody.ReceiveBody | index.js:51-59 | the buffered body is the chunks joined in arrival order, of their total length |
| Handlers.Get | index.js:33-46 | 200 iff the file exists and is read; then the body is its bytes as `image/jpeg`; otherwise 404 `Not Found` |
| Handlers.Put | index.js:49-69 | 201 iff the write succeeds, else 500; a successful write stores exactly the data; no other file changes |
| Handlers.Delete | index.js:73-86 | 200 `OK` iff the file exists and the unlink succeeds, and then it is removed; otherwise 404 and nothing changes |
| Handlers.Serve | index.js:89-117 | a request changes no file other than `<key>.jpg` of its own key |
| Handlers.InvalidKeyRejected | index.js:93-100 | an invalid key is a 400 `Bad Request: Invalid HTTP code` for every method, and nothing changes |
| Handlers.UnsupportedMethod | index.js:103-116 | a valid key with a method other than GET, PUT and DELETE is a 405 `Method Not Allowed`, and nothing changes |
| Handlers.ResponseKinds | index.js:89-117 | every answer is one of the six fixed texts or a 200 `image/jpeg` image |
| Handlers.GetReadsOnly | index.js:33-46 | GET never changes the directory; a missing file and a failed read give the same 404 |
| Handlers.PutOverwrites | index.js:57-62 | a successful PUT answers 201 and replaces the entry by the chunks joined in order |
| Handlers.PutWriteFails | index.js:64-66 | a failed write answers 500 and leaves every other file alone |
| Handlers.ReadAfterWrite | index.js:37-39 | after a successful PUT of B, a GET of the same key that can read answers 200 with B as `image/jpeg` |
| Handlers.DeleteThenMiss | index.js:76-84 | deleting a stored key answers 200 `OK` and removes it; a following DELETE or GET of it answers 404 |
| Handlers.DeleteMissing | index.js:81-84 | DELETE of a key without a file answers 404 and changes nothing |
| Handlers.OtherKeysUntouched | index.js:28-30 | a request leaves the file of every other key as it was |
| Handlers.PutIdempotent | index.js:60 | repeating a successful PUT of the same bytes leaves the same directory and answer as one PUT |
| Handlers.PutGetDeleteGet | index.js:89-117 | PUT /200, GET /200, DELETE /200, GET /200 answer 201, the image, 200 `OK`, 404, and end with no `200.jpg` |
| Server.CacheServer.HandleGet | index.js:33-46 | reads the directory without changing it; 200 with the stored image iff the file exists and is read, else 404 |
| Server.CacheServer.HandlePut | index.js:49-69 | overwrites `<key>.jpg` with the buffered body and answers 201, or answers 500; no other file changes |
| Server.CacheServer.HandleDelete | index.js:73-86 | removes `<key>.jpg` and answers 200 iff it existed and the unlink succeeded, else 404 with nothing changed |
| Server.CacheServer.Handle | index.js:89-117 | the new directory and the answer are those of `Serve`; invalid keys are 400 and unsupported methods 405 with nothing changed |

## Left out

- Command-line options (`commander`), creating the cache directory and starting the listener (index.js:7-25, 119-134): configuration and bootstrap, with no decision logic.
- Logging with `console.log` and `console.error`: no behaviour depends on it.
- `path.join` with the cache directory: the store is keyed by `<key>.jpg` alone, without path normalisation.
- The `http` request and response objects and their events: a request is its method, target and body chunks, and the `end` event is taken to arrive; a client that disconnects before it gets no response in the source, which the model does not represent.
- Concurrency: requests interleave at `await` points in the source with no per-key locking; each request is modelled as atomic, so races between requests on one key are not captured.
- The contents of a file after a failed write are an input, not derived from file-system semantics.
- JavaScript strings are UTF-16 code units; the model uses Dafny characters, which agree on the ASCII targets the guard accepts.
