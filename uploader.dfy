/** The route table and admission gate of lib/uploader.js: handlers are added
    to `handlerPaths` once they have a storage and a processor, a request
    path is matched against the table in registration order, and a matched
    request either answers a preflight, passes through, or starts the upload
    pipeline. Route matching (`route-parser`) is the parameter
    `routeMatches(pattern, path)`. */
module Uploader {
  import opened Text
  import opened Handlers

  datatype HandlerPath = HandlerPath(reqPath: string, handler: UploadHandler)

  /** The first entry, at or after `from`, whose route matches `path`. */
  function FirstMatchFrom(paths: seq<HandlerPath>, path: string,
                          routeMatches: (string, string) -> bool, from: nat): (r: Option<nat>)
    requires from <= |paths|
    ensures r.Some? ==> from <= r.value < |paths| && routeMatches(paths[r.value].reqPath, path)
    ensures r.Some? ==> forall j | from <= j < r.value :: !routeMatches(paths[j].reqPath, path)
    ensures r.None? ==> forall j | from <= j < |paths| :: !routeMatches(paths[j].reqPath, path)
    decreases |paths| - from
  {
    if from == |paths| then None
    else if routeMatches(paths[from].reqPath, path) then Some(from)
    else FirstMatchFrom(paths, path, routeMatches, from + 1)
  }

  /** The first entry, at or after `from`, registered under exactly `reqPath`. */
  function FirstWithPathFrom(paths: seq<HandlerPath>, reqPath: string, from: nat): (r: Option<nat>)
    requires from <= |paths|
    ensures r.Some? ==> from <= r.value < |paths| && paths[r.value].reqPath == reqPath
    ensures r.Some? ==> forall j | from <= j < r.value :: paths[j].reqPath != reqPath
    ensures r.None? ==> forall j | from <= j < |paths| :: paths[j].reqPath != reqPath
    decreases |paths| - from
  {
    if from == |paths| then None
    else if paths[from].reqPath == reqPath then Some(from)
    else FirstWithPathFrom(paths, reqPath, from + 1)
  }

  /** What `handleIncomingRequest` does with a request. */
  datatype Admission = PassThrough | Preflight(handler: UploadHandler) | StartUpload(handler: UploadHandler)

  /** The admission decision for a request, given the handler its path matched
      (if any), its method and its content type: no match passes through;
      `OPTIONS` ends the response; anything but a multipart `POST` passes
      through; the rest starts the pipeline. */
  function Admit(matched: Option<UploadHandler>, verb: string, contentType: Option<string>): (r: Admission)
    ensures r.StartUpload? <==>
      matched.Some? && verb == "POST" && contentType.Some? && StartsWith(contentType.value, "multipart/form-data")
    ensures r.Preflight? <==> matched.Some? && verb == "OPTIONS"
    ensures !r.PassThrough? ==> r.handler == matched.value
  {
    if matched.None? then PassThrough
    else if verb == "OPTIONS" then Preflight(matched.value)
    else if verb != "POST" then PassThrough
    else if contentType.None? || contentType.value == "" then PassThrough
    else if !StartsWith(contentType.value, "multipart/form-data") then PassThrough
    else StartUpload(matched.value)
  }

  class Uploader {
    var handlerPaths: seq<HandlerPath>

    constructor ()
      ensures handlerPaths == []
    {
      handlerPaths := [];
    }

    /** `uploader.add(handler)`: a handler without a storage resolver or an
        upload processor is refused; otherwise its path is appended. */
    method Add(h: UploadHandler) returns (added: bool)
      modifies this
      ensures added <==> h.storageFn.Some? && h.hasProcessor
      ensures added ==> handlerPaths == old(handlerPaths) + [HandlerPath(h.path, h)]
      ensures !added ==> handlerPaths == old(handlerPaths)
    {
      if h.storageFn.None? {
        return false;
      }
      if !h.hasProcessor {
        return false;
      }
      handlerPaths := handlerPaths + [HandlerPath(h.path, h)];
      return true;
    }

    /** `uploader.remove(reqPath)`: the first entry with that path is deleted. */
    method Remove(reqPath: string) returns (removed: bool)
      modifies this
      ensures removed <==> FirstWithPathFrom(old(handlerPaths), reqPath, 0).Some?
      ensures removed ==> var i := FirstWithPathFrom(old(handlerPaths), reqPath, 0).value;
        handlerPaths == old(handlerPaths)[..i] + old(handlerPaths)[i + 1..]
      ensures !removed ==> handlerPaths == old(handlerPaths)
    {
      var i := 0;
      while i < |handlerPaths|
        invariant 0 <= i <= |handlerPaths|
        invariant handlerPaths == old(handlerPaths)
        invariant FirstWithPathFrom(handlerPaths, reqPath, 0) == FirstWithPathFrom(handlerPaths, reqPath, i)
      {
        if handlerPaths[i].reqPath == reqPath {
          handlerPaths := handlerPaths[..i] + handlerPaths[i + 1..];
          return true;
        }
        i := i + 1;
      }
      return false;
    }

    /** `matchHandler(path)`: the handler of the first entry, in registration
        order, whose route matches. */
    method MatchHandler(path: string, routeMatches: (string, string) -> bool) returns (r: Option<UploadHandler>)
      ensures r.None? <==> forall j | 0 <= j < |handlerPaths| :: !routeMatches(handlerPaths[j].reqPath, path)
      ensures r.Some? ==> var i := FirstMatchFrom(handlerPaths, path, routeMatches, 0).value;
        r.value == handlerPaths[i].handler
        && routeMatches(handlerPaths[i].reqPath, path)
        && forall j | 0 <= j < i :: !routeMatches(handlerPaths[j].reqPath, path)
    {
      var i := 0;
      while i < |handlerPaths|
        invariant 0 <= i <= |handlerPaths|
        invariant forall j | 0 <= j < i :: !routeMatches(handlerPaths[j].reqPath, path)
        invariant FirstMatchFrom(handlerPaths, path, routeMatches, 0) == FirstMatchFrom(handlerPaths, path, routeMatches, i)
      {
        if routeMatches(handlerPaths[i].reqPath, path) {
          return Some(handlerPaths[i].handler);
        }
        i := i + 1;
      }
      return None;
    }

    /** `handleIncomingRequest`: match the path, then decide admission. */
    method HandleIncomingRequest(path: string, verb: string, contentType: Option<string>,
                                 routeMatches: (string, string) -> bool) returns (a: Admission)
      ensures var m := FirstMatchFrom(handlerPaths, path, routeMatches, 0);
        a == Admit(if m.Some? then Some(handlerPaths[m.value].handler) else None, verb, contentType)
    {
      var matched := MatchHandler(path, routeMatches);
      a := Admit(matched, verb, contentType);
    }
  }
}
