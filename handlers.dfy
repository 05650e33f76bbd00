/** What one request does to the cache directory and what it answers: the
    three handlers and the request callback, as functions of the directory's
    contents before the request and of the I/O outcomes the request meets. */
module Handlers {
  import opened Http
  import opened CacheKey
  import opened RequestBody

  /** The cache directory: file name to file contents. */
  type Store = map<string, Bytes>

  /** How the single `fs.writeFile` of a PUT ends. A failed write leaves at
      that file name whatever the file system left there (nothing, the old
      file, a truncated one); the model takes it as given and claims nothing
      about it. */
  datatype WriteResult = Written | WriteFailed(leftBehind: Option<Bytes>)

  /** The I/O outcomes one request meets: whether reading an existing file
      fails, how the write ends, whether unlinking an existing file fails.
      Reading or unlinking a missing file always fails. */
  datatype Faults = Faults(readFails: bool, write: WriteResult, unlinkFails: bool)

  const NoFaults := Faults(false, Written, false)

  /** The directory after a write that failed, leaving `left` at `name`. */
  function AfterFailedWrite(store: Store, name: string, left: Option<Bytes>): Store
  {
    match left
    case None => store - {name}
    case Some(bytes) => store[name := bytes]
  }

  /** `handleGet`: answer with the stored image, or 404 when it cannot be read. */
  function Get(store: Store, key: string, readFails: bool): (r: Response)
    ensures r.status == 200 <==> FileName(key) in store && !readFails
    ensures r.status == 200 ==> r.contentType == ImageJpeg && r.body == Image(store[FileName(key)])
    ensures r.status != 200 ==> r == NotFound
  {
    var name := FileName(key);
    if name in store && !readFails then ImageResponse(store[name]) else NotFound
  }

  /** `handlePut` once the body is joined: a full overwrite of `<key>.jpg`. */
  function Put(store: Store, key: string, data: Bytes, write: WriteResult): (r: (Response, Store))
    ensures r.0 == Created <==> write.Written?
    ensures r.0 != Created ==> r.0 == InternalServerError
    ensures write.Written? ==> FileName(key) in r.1 && r.1[FileName(key)] == data
    ensures r.1 - {FileName(key)} == store - {FileName(key)}
  {
    var name := FileName(key);
    match write
    case Written => (Created, store[name := data])
    case WriteFailed(left) => (InternalServerError, AfterFailedWrite(store, name, left))
  }

  /** `handleDelete`: unlink `<key>.jpg`; any failure, a missing file included, is a 404. */
  function Delete(store: Store, key: string, unlinkFails: bool): (r: (Response, Store))
    ensures r.0 == Deleted <==> FileName(key) in store && !unlinkFails
    ensures r.0 == Deleted ==> r.1 == store - {FileName(key)}
    ensures r.0 != Deleted ==> r == (NotFound, store)
  {
    var name := FileName(key);
    if name in store && !unlinkFails then (Deleted, store - {name}) else (NotFound, store)
  }

  predicate IsHandledVerb(verb: string)
  {
    verb == "GET" || verb == "PUT" || verb == "DELETE"
  }

  /** The request callback: extract and check the key, then dispatch on the method. */
  function Serve(store: Store, req: Request, faults: Faults): (r: (Response, Store))
    ensures r.1 - {FileName(KeyOf(req.url))} == store - {FileName(KeyOf(req.url))}
  {
    var key := KeyOf(req.url);
    if !IsValidKey(key) then (BadRequest, store)
    else if req.verb == "GET" then (Get(store, key, faults.readFails), store)
    else if req.verb == "PUT" then Put(store, key, Concat(req.chunks), faults.write)
    else if req.verb == "DELETE" then Delete(store, key, faults.unlinkFails)
    else (MethodNotAllowed, store)
  }

  /** The key is checked before the method: an invalid key is a 400 for every
      method, unsupported ones included, and the directory is not touched. */
  lemma InvalidKeyRejected(store: Store, req: Request, faults: Faults)
    requires !IsValidKey(KeyOf(req.url))
    ensures Serve(store, req, faults) == (BadRequest, store)
  {
  }

  /** A valid key with a method other than GET, PUT and DELETE is a 405 and
      the directory is not touched. */
  lemma UnsupportedMethod(store: Store, req: Request, faults: Faults)
    requires IsValidKey(KeyOf(req.url)) && !IsHandledVerb(req.verb)
    ensures Serve(store, req, faults) == (MethodNotAllowed, store)
  {
  }

  /** Every answer is one of the fixed texts or a stored image served as a JPEG. */
  lemma ResponseKinds(store: Store, req: Request, faults: Faults)
    ensures var r := Serve(store, req, faults).0;
      r in {BadRequest, MethodNotAllowed, NotFound, Created, Deleted, InternalServerError}
      || (r.status == 200 && r.contentType == ImageJpeg && r.body.Image?)
  {
  }

  /** GET never changes the directory; a missing file and a failed read are
      the same 404. */
  lemma GetReadsOnly(store: Store, req: Request, faults: Faults)
    requires IsValidKey(KeyOf(req.url)) && req.verb == "GET"
    ensures Serve(store, req, faults).1 == store
    ensures Serve(store, req, faults).0 == NotFound
      <==> FileName(KeyOf(req.url)) !in store || faults.readFails
  {
  }

  /** A successful PUT stores exactly the chunks joined in arrival order,
      replacing whatever was there, and answers 201. */
  lemma PutOverwrites(store: Store, req: Request, faults: Faults)
    requires IsValidKey(KeyOf(req.url)) && req.verb == "PUT" && faults.write == Written
    ensures Serve(store, req, faults) == (Created, store[FileName(KeyOf(req.url)) := Concat(req.chunks)])
  {
  }

  /** A failed write answers 500 and leaves every other file alone. */
  lemma PutWriteFails(store: Store, req: Request, faults: Faults)
    requires IsValidKey(KeyOf(req.url)) && req.verb == "PUT" && faults.write.WriteFailed?
    ensures Serve(store, req, faults).0 == InternalServerError
    ensures Serve(store, req, faults).1 - {FileName(KeyOf(req.url))} == store - {FileName(KeyOf(req.url))}
  {
  }

  /** Read after write: once a PUT to a key has succeeded, a GET of the same
      key (through any target that names it) that can read the file answers
      200 with the bytes put, as `image/jpeg`. */
  lemma ReadAfterWrite(store: Store, put: Request, get: Request, putFaults: Faults, getFaults: Faults)
    requires IsValidKey(KeyOf(put.url)) && put.verb == "PUT" && putFaults.write == Written
    requires get.verb == "GET" && KeyOf(get.url) == KeyOf(put.url) && !getFaults.readFails
    ensures var (putResponse, afterPut) := Serve(store, put, putFaults);
      putResponse == Created
      && Serve(afterPut, get, getFaults) == (ImageResponse(Concat(put.chunks)), afterPut)
  {
  }

  /** Deleting a stored key answers 200 `OK`; after it, both a second DELETE
      and a GET of that key answer 404, whatever I/O outcome they meet. */
  lemma DeleteThenMiss(store: Store, del: Request, next: Request, faults: Faults, nextFaults: Faults)
    requires IsValidKey(KeyOf(del.url)) && del.verb == "DELETE"
    requires FileName(KeyOf(del.url)) in store && !faults.unlinkFails
    requires KeyOf(next.url) == KeyOf(del.url) && (next.verb == "DELETE" || next.verb == "GET")
    ensures var (delResponse, afterDelete) := Serve(store, del, faults);
      delResponse == Deleted
      && afterDelete == store - {FileName(KeyOf(del.url))}
      && Serve(afterDelete, next, nextFaults) == (NotFound, afterDelete)
  {
  }

  /** DELETE of a key with no file answers 404 and changes nothing. */
  lemma DeleteMissing(store: Store, req: Request, faults: Faults)
    requires IsValidKey(KeyOf(req.url)) && req.verb == "DELETE"
    requires FileName(KeyOf(req.url)) !in store
    ensures Serve(store, req, faults) == (NotFound, store)
  {
  }

  /** A request leaves the file of every other key as it was: present with
      the same bytes, or absent. */
  lemma OtherKeysUntouched(store: Store, req: Request, faults: Faults, other: string)
    requires other != KeyOf(req.url)
    ensures var after := Serve(store, req, faults).1;
      (FileName(other) in after <==> FileName(other) in store)
      && (FileName(other) in store ==> after[FileName(other)] == store[FileName(other)])
  {
    FileNameInjective(other, KeyOf(req.url));
    var after := Serve(store, req, faults).1;
    var name := FileName(KeyOf(req.url));
    assert FileName(other) in store <==> FileName(other) in store - {name};
    assert FileName(other) in after <==> FileName(other) in after - {name};
    if FileName(other) in store {
      assert (store - {name})[FileName(other)] == store[FileName(other)];
      assert (after - {name})[FileName(other)] == after[FileName(other)];
    }
  }

  /** Putting the same bytes twice leaves the directory as putting them once. */
  lemma PutIdempotent(store: Store, req: Request, faults: Faults)
    requires IsValidKey(KeyOf(req.url)) && req.verb == "PUT" && faults.write == Written
    ensures var (response, once) := Serve(store, req, faults);
      Serve(once, req, faults) == (response, once)
  {
    var name, data := FileName(KeyOf(req.url)), Concat(req.chunks);
    assert store[name := data][name := data] == store[name := data];
  }

  /** The life of one key with no I/O failure: PUT /200, GET /200, DELETE /200, GET /200. */
  lemma PutGetDeleteGet(store: Store, image: seq<Bytes>)
    ensures var (r1, s1) := Serve(store, Request("PUT", "/200", image), NoFaults);
      var (r2, s2) := Serve(s1, Request("GET", "/200", []), NoFaults);
      var (r3, s3) := Serve(s2, Request("DELETE", "/200", []), NoFaults);
      var (r4, s4) := Serve(s3, Request("GET", "/200", []), NoFaults);
      r1 == Created && r2 == ImageResponse(Concat(image)) && r3 == Deleted && r4 == NotFound
      && s4 == store - {"200.jpg"}
  {
    SampleTargets();
    assert KeyOf("/200") == "200" && FileName("200") == "200.jpg";
    var s1 := store["200.jpg" := Concat(image)];
    assert s1 - {"200.jpg"} == store - {"200.jpg"};
  }
}
