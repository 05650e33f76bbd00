/** The server as an object holding the cache directory, whose handlers read
    and replace that state one request at a time. */
module Server {
  import opened Http
  import opened CacheKey
  import opened RequestBody
  import opened Handlers

  class CacheServer {
    /** The files of the cache directory, by name. */
    var store: Store

    constructor (initial: Store)
      ensures store == initial
    {
      store := initial;
    }

    /** `handleGet`: read `<key>.jpg`; a hit is served as a JPEG, a miss or a
        failed read is a 404. Nothing is changed. */
    method HandleGet(key: string, readFails: bool) returns (response: Response)
      ensures response.status == 200 <==> FileName(key) in store && !readFails
      ensures response.status == 200 ==> response == ImageResponse(store[FileName(key)])
      ensures response.status != 200 ==> response == NotFound
    {
      var name := FileName(key);
      if name in store && !readFails {
        response := ImageResponse(store[name]);
      } else {
        response := NotFound;
      }
    }

    /** `handlePut`: buffer the whole body, then overwrite `<key>.jpg` with it. */
    method HandlePut(key: string, arriving: seq<Bytes>, write: WriteResult) returns (response: Response)
      modifies this
      ensures (response, store) == Put(old(store), key, Concat(arriving), write)
      ensures write.Written? ==> response == Created && store == old(store)[FileName(key) := Concat(arriving)]
      ensures write.WriteFailed? ==> response == InternalServerError
      ensures store - {FileName(key)} == old(store) - {FileName(key)}
    {
      var name := FileName(key);
      var imageData := ReceiveBody(arriving);
      match write
      case Written =>
        store := store[name := imageData];
        response := Created;
      case WriteFailed(left) =>
        store := AfterFailedWrite(store, name, left);
        response := InternalServerError;
    }

    /** `handleDelete`: unlink `<key>.jpg`; a missing file or a failed unlink is a 404. */
    method HandleDelete(key: string, unlinkFails: bool) returns (response: Response)
      modifies this
      ensures (response, store) == Delete(old(store), key, unlinkFails)
      ensures response == Deleted <==> FileName(key) in old(store) && !unlinkFails
      ensures response == Deleted ==> store == old(store) - {FileName(key)}
      ensures response != Deleted ==> response == NotFound && store == old(store)
    {
      var name := FileName(key);
      if name in store && !unlinkFails {
        store := store - {name};
        response := Deleted;
      } else {
        response := NotFound;
      }
    }

    /** The request callback: validate the key, then dispatch on the method. */
    method Handle(req: Request, faults: Faults) returns (response: Response)
      modifies this
      ensures (response, store) == Serve(old(store), req, faults)
      ensures !IsValidKey(KeyOf(req.url)) ==> response == BadRequest && store == old(store)
      ensures IsValidKey(KeyOf(req.url)) && !IsHandledVerb(req.verb)
        ==> response == MethodNotAllowed && store == old(store)
      ensures store - {FileName(KeyOf(req.url))} == old(store) - {FileName(KeyOf(req.url))}
    {
      var key := KeyOf(req.url);
      if !IsValidKey(key) {
        response := BadRequest;
        return;
      }
      if req.verb == "GET" {
        response := HandleGet(key, faults.readFails);
      } else if req.verb == "PUT" {
        response := HandlePut(key, req.chunks, faults.write);
      } else if req.verb == "DELETE" {
        response := HandleDelete(key, faults.unlinkFails);
      } else {
        response := MethodNotAllowed;
      }
    }
  }
}
