/** lib/grpcxx/request.cpp: one stream's request, fed by headers and body chunks. */
module Requests {
  import opened Base
  import opened Messages

  datatype Flag = Invalid | HeaderMethod | HeaderPath | HeaderContentType

  datatype Req = Req(
    flags: set<Flag>,
    id: int,
    metadata: map<string, string>,
    msg: Msg,
    rpc: string,
    service: string)

  datatype Header = Header(name: string, value: string)

  function NewReq(id: int): Req {
    Req({}, id, map[], FRESH, "", "")
  }

  predicate IsInvalid(r: Req) {
    Invalid in r.flags
  }

  /** `request::operator bool`. */
  predicate IsReady(r: Req) {
    !IsInvalid(r) && r.service != "" && r.rpc != ""
  }

  /** `std::string::find(c, start)`. */
  function FindFrom(s: string, c: char, start: nat): (r: Option<nat>)
    ensures r.Some? ==> start <= r.value < |s| && s[r.value] == c && forall i :: start <= i < r.value ==> s[i] != c
    ensures r.None? ==> forall i :: start <= i < |s| ==> s[i] != c
    decreases |s| - start
  {
    if start >= |s| then None
    else if s[start] == c then Some(start)
    else FindFrom(s, c, start + 1)
  }

  function Flagged(r: Req, f: Flag): Req {
    r.(flags := r.flags + {f})
  }

  /** The `:path` branch. `front()` of an empty value reads the terminating NUL. */
  function ApplyPath(r: Req, value: string): Req {
    var r1 := Flagged(r, HeaderPath);
    if value == "" || value[0] != '/' then Flagged(r1, Invalid)
    else
      var n := FindFrom(value, '/', 1);
      if n.None? then Flagged(r1, Invalid)
      else
        var r2 := r1.(service := value[1..n.value], rpc := value[n.value + 1..]);
        if r2.rpc == "" then Flagged(r2, Invalid) else r2
  }

  function ApplyHeader(r: Req, h: Header): Req {
    if IsInvalid(r) then r
    else if h.name == ":method" then
      var r1 := Flagged(r, HeaderMethod);
      if h.value != "POST" then Flagged(r1, Invalid) else r1
    else if h.name == ":path" then ApplyPath(r, h.value)
    else if h.name == "content-type" then
      var r1 := Flagged(r, HeaderContentType);
      if !("application/grpc" <= h.value) then Flagged(r1, Invalid) else r1
    else if ":" <= h.name || "grpc-" <= h.name then r
    else if h.name in r.metadata then r
    else r.(metadata := r.metadata[h.name := h.value])
  }

  function ApplyData(sign: CharSign, r: Req, chunk: seq<byte>): Req {
    if IsInvalid(r) then r
    else
      var m := Feed(sign, r.msg, chunk);
      if m.None? then Flagged(r, Invalid) else r.(msg := m.value)
  }

  function ApplyHeaders(r: Req, hs: seq<Header>): Req {
    if hs == [] then r else ApplyHeader(ApplyHeaders(r, hs[..|hs| - 1]), hs[|hs| - 1])
  }

  function ApplyChunks(sign: CharSign, r: Req, chunks: seq<seq<byte>>): Req {
    if chunks == [] then r
    else ApplyData(sign, ApplyChunks(sign, r, chunks[..|chunks| - 1]), chunks[|chunks| - 1])
  }

  // ----- What a list of headers amounts to

  /** `path` names method `rpc` of service `service`, as gRPC over HTTP/2 writes it. */
  predicate PathNames(path: string, service: string, rpc: string) {
    path == "/" + service + "/" + rpc && '/' !in service && rpc != ""
  }

  ghost predicate GoodPath(path: string) {
    exists service, rpc :: PathNames(path, service, rpc)
  }

  ghost predicate BadHeader(h: Header) {
    || (h.name == ":method" && h.value != "POST")
    || (h.name == ":path" && !GoodPath(h.value))
    || (h.name == "content-type" && !("application/grpc" <= h.value))
  }

  /** Metadata the handlers can see: neither a header the server interprets nor a reserved name. */
  predicate IsCustom(name: string) {
    name != "content-type" && !(":" <= name) && !("grpc-" <= name)
  }

  /** The last `:path` is at `k`. */
  predicate LastPathAt(hs: seq<Header>, k: nat) {
    k < |hs| && hs[k].name == ":path" && forall j :: k < j < |hs| ==> hs[j].name != ":path"
  }

  /** The first header called `hs[k].name` is at `k`. */
  predicate FirstAt(hs: seq<Header>, k: nat) {
    k < |hs| && forall j :: 0 <= j < k ==> hs[j].name != hs[k].name
  }

  lemma PathShape(path: string, service: string, rpc: string)
    requires PathNames(path, service, rpc)
    ensures |path| >= 2 + |service| && path[0] == '/' && path[1 + |service|] == '/'
    ensures forall i :: 1 <= i < 1 + |service| ==> path[i] != '/'
    ensures path[1..1 + |service|] == service && path[2 + |service|..] == rpc
  {
    assert forall i :: 1 <= i < 1 + |service| ==> path[i] == service[i - 1];
  }

  lemma PathUnique(path: string, s1: string, m1: string, s2: string, m2: string)
    requires PathNames(path, s1, m1) && PathNames(path, s2, m2)
    ensures s1 == s2 && m1 == m2
  {
    PathShape(path, s1, m1);
    PathShape(path, s2, m2);
  }

  /** The scan for the second slash accepts exactly the paths that name a method, and finds its parts. */
  lemma PathVerdict(r: Req, path: string)
    requires !IsInvalid(r)
    ensures var r' := ApplyPath(r, path);
            && (IsInvalid(r') <==> !GoodPath(path))
            && (!IsInvalid(r') ==> PathNames(path, r'.service, r'.rpc))
            && r'.metadata == r.metadata && r'.msg == r.msg && r'.id == r.id
  {
    if GoodPath(path) {
      var service, rpc :| PathNames(path, service, rpc);
      PathShape(path, service, rpc);
      assert FindFrom(path, '/', 1) == Some(1 + |service|);
    }
    var r' := ApplyPath(r, path);
    if !IsInvalid(r') {
      var n := FindFrom(path, '/', 1).value;
      assert path == "/" + path[1..n] + "/" + path[n + 1..];
      assert PathNames(path, r'.service, r'.rpc);
    }
  }

  /** The path of a request is the one its last `:path` header names. */
  ghost predicate PathRecorded(service: string, rpc: string, hs: seq<Header>) {
    && ((forall j :: 0 <= j < |hs| ==> hs[j].name != ":path") ==> service == "" && rpc == "")
    && (forall k: nat :: LastPathAt(hs, k) ==> PathNames(hs[k].value, service, rpc))
  }

  /** The metadata holds the first value of each custom header, and nothing else. */
  ghost predicate MetadataRecorded(metadata: map<string, string>, hs: seq<Header>) {
    && (forall name :: name in metadata <==> IsCustom(name) && exists k :: 0 <= k < |hs| && hs[k].name == name)
    && (forall k: nat :: FirstAt(hs, k) && IsCustom(hs[k].name) ==> metadata[hs[k].name] == hs[k].value)
  }

  lemma RecordPath(r: Req, hs: seq<Header>, h: Header)
    requires !IsInvalid(r) && PathRecorded(r.service, r.rpc, hs) && !BadHeader(h)
    ensures var r' := ApplyHeader(r, h); !IsInvalid(r') && PathRecorded(r'.service, r'.rpc, hs + [h])
  {
    var r', hs' := ApplyHeader(r, h), hs + [h];
    assert hs'[|hs|] == h;
    if h.name == ":path" {
      PathVerdict(r, h.value);
      assert forall k: nat :: LastPathAt(hs', k) ==> k == |hs|;
    } else {
      assert r'.service == r.service && r'.rpc == r.rpc;
      forall k: nat | LastPathAt(hs', k)
        ensures LastPathAt(hs, k)
      {
        assert forall j :: 0 <= j < |hs| ==> hs'[j] == hs[j];
      }
      if forall j :: 0 <= j < |hs'| ==> hs'[j].name != ":path" {
        forall j | 0 <= j < |hs| ensures hs[j].name != ":path" { assert hs'[j] == hs[j]; }
      }
    }
  }

  /** Only the first custom header of a name gets into the metadata. */
  lemma MetadataOfOne(r: Req, h: Header)
    requires !IsInvalid(r)
    ensures ApplyHeader(r, h).metadata ==
            if IsCustom(h.name) && h.name !in r.metadata then r.metadata[h.name := h.value] else r.metadata
  {
    if h.name == ":path" {
      PathVerdict(r, h.value);
    }
  }

  lemma RecordMetadata(r: Req, hs: seq<Header>, h: Header)
    requires !IsInvalid(r) && MetadataRecorded(r.metadata, hs)
    ensures MetadataRecorded(ApplyHeader(r, h).metadata, hs + [h])
  {
    hide ApplyHeader, IsCustom;
    var m, m', hs' := r.metadata, ApplyHeader(r, h).metadata, hs + [h];
    MetadataOfOne(r, h);
    forall name
      ensures name in m' <==> IsCustom(name) && exists k :: 0 <= k < |hs'| && hs'[k].name == name
    {
      if exists k :: 0 <= k < |hs| && hs[k].name == name {
        var k :| 0 <= k < |hs| && hs[k].name == name;
        assert hs'[k].name == name;
      }
      assert hs'[|hs|].name == h.name;
    }
    forall k: nat | FirstAt(hs', k) && IsCustom(hs'[k].name)
      ensures m'[hs'[k].name] == hs'[k].value
    {
      assert forall j :: 0 <= j < |hs| ==> hs'[j] == hs[j];
      if k < |hs| {
        assert FirstAt(hs, k);
        assert hs[k].name in m;
      }
    }
  }

  lemma RejectOne(r: Req, h: Header)
    requires !IsInvalid(r) && BadHeader(h)
    ensures IsInvalid(ApplyHeader(r, h))
  {
    if h.name == ":path" {
      PathVerdict(r, h.value);
    }
  }

  ghost predicate SomeBad(hs: seq<Header>) {
    exists k :: 0 <= k < |hs| && BadHeader(hs[k])
  }

  /** A header list is rejected exactly when one of its entries is bad, wherever that entry stands. */
  lemma {:induction false} HeaderVerdict(id: int, hs: seq<Header>)
    ensures var r := ApplyHeaders(NewReq(id), hs);
            && (IsInvalid(r) <==> SomeBad(hs))
            && (!IsInvalid(r) ==> PathRecorded(r.service, r.rpc, hs) && MetadataRecorded(r.metadata, hs))
            && r.msg == FRESH && r.id == id
  {
    if hs != [] {
      var init, last := hs[..|hs| - 1], hs[|hs| - 1];
      HeaderVerdict(id, init);
      var r := ApplyHeaders(NewReq(id), init);
      assert hs == init + [last];
      assert SomeBad(hs) <==> SomeBad(init) || BadHeader(last) by {
        if SomeBad(init) {
          var k :| 0 <= k < |init| && BadHeader(init[k]);
          assert BadHeader(hs[k]);
        }
        assert hs[|init|] == last;
      }
      if !IsInvalid(r) {
        if last.name == ":path" {
          PathVerdict(r, last.value);
        }
        if BadHeader(last) {
          RejectOne(r, last);
        } else {
          RecordPath(r, init, last);
          RecordMetadata(r, init, last);
        }
      }
    }
  }

  predicate Named(hs: seq<Header>, name: string) {
    exists k :: 0 <= k < |hs| && hs[k].name == name
  }

  /** A request that is still valid remembers which of the headers it interprets have come. */
  lemma {:induction false} FlagsRecorded(id: int, hs: seq<Header>)
    ensures var r := ApplyHeaders(NewReq(id), hs);
            !IsInvalid(r) ==>
              && (HeaderMethod in r.flags <==> Named(hs, ":method"))
              && (HeaderPath in r.flags <==> Named(hs, ":path"))
              && (HeaderContentType in r.flags <==> Named(hs, "content-type"))
  {
    if hs != [] {
      hide Named;
      var init, last := hs[..|hs| - 1], hs[|hs| - 1];
      FlagsRecorded(id, init);
      assert hs == init + [last];
      NamedOne(init, last, ":method");
      NamedOne(init, last, ":path");
      NamedOne(init, last, "content-type");
    }
  }

  lemma NamedOne(hs: seq<Header>, h: Header, name: string)
    ensures Named(hs + [h], name) <==> Named(hs, name) || h.name == name
  {
    var all := hs + [h];
    if Named(hs, name) {
      var k :| 0 <= k < |hs| && hs[k].name == name;
      assert all[k].name == name;
    }
    assert all[|hs|] == h;
  }

  lemma VerdictIgnoresOrder(id: int, hs: seq<Header>, hs': seq<Header>)
    requires multiset(hs) == multiset(hs')
    ensures IsInvalid(ApplyHeaders(NewReq(id), hs)) == IsInvalid(ApplyHeaders(NewReq(id), hs'))
  {
    HeaderVerdict(id, hs);
    HeaderVerdict(id, hs');
    assert forall h :: h in hs <==> h in multiset(hs);
    assert forall h :: h in hs' <==> h in multiset(hs');
    if SomeBad(hs) {
      var k :| 0 <= k < |hs| && BadHeader(hs[k]);
      assert hs[k] in hs';
    }
    if SomeBad(hs') {
      var k :| 0 <= k < |hs'| && BadHeader(hs'[k]);
      assert hs'[k] in hs;
    }
  }

  // ----- What a list of body chunks amounts to

  /** Once invalid, a request never changes again. */
  lemma {:induction false} InvalidForGood(sign: CharSign, r: Req, hs: seq<Header>, chunks: seq<seq<byte>>)
    requires IsInvalid(r)
    ensures ApplyHeaders(r, hs) == r && ApplyChunks(sign, r, chunks) == r
    decreases |hs| + |chunks|
  {
    if hs != [] {
      InvalidForGood(sign, r, hs[..|hs| - 1], chunks);
    } else if chunks != [] {
      InvalidForGood(sign, r, hs, chunks[..|chunks| - 1]);
    }
  }

  /**
   * For every chunking whatsoever: the first `k` chunks are kept byte for byte, and the chunk after
   * them, if there is one, is the first to arrive when all announced bytes were already there.
   */
  lemma {:induction false} BodyVerdict(sign: CharSign, r: Req, chunks: seq<seq<byte>>) returns (k: nat)
    requires !IsInvalid(r) && r.msg == FRESH
    ensures k <= |chunks|
    ensures FeedAll(sign, FRESH, chunks[..k]).Some?
    ensures var m := FeedAll(sign, FRESH, chunks[..k]).value;
            && ReaderInv(sign, m, Concat(chunks[..k]))
            && (k < |chunks| ==> Full(m) && AllArrived(sign, chunks[..k]))
            && (forall i :: 0 <= i < k ==> !AllArrived(sign, chunks[..i]))
            && ApplyChunks(sign, r, chunks) ==
               if k == |chunks| then r.(msg := m) else Flagged(r.(msg := m), Invalid)
  {
    hide DecodeLength, AllArrived;
    if chunks == [] {
      return 0;
    }
    var init := chunks[..|chunks| - 1];
    k := BodyVerdict(sign, r, init);
    assert forall i :: 0 <= i <= k ==> init[..i] == chunks[..i];
    if k == |init| {
      assert init[..k] == init;
      var m := FeedAll(sign, FRESH, init).value;
      assert chunks == init + [chunks[|init|]];
      RefusedNext(sign, init, chunks[|init|]);
      if !Full(m) {
        k := |chunks|;
        assert chunks[..k] == chunks;
        BytesConserved(sign, chunks);
      }
    }
  }

  // ----- The request as the object the program mutates

  class Request {
    var flags: set<Flag>
    const id: int
    var metadata: map<string, string>
    const msg: Message
    var rpc: string
    var service: string

    function State(): Req
      reads this, msg
    {
      Req(flags, id, metadata, msg.State(), rpc, service)
    }

    constructor (id: int)
      ensures State() == NewReq(id) && fresh(msg)
    {
      flags, this.id, metadata, rpc, service := {}, id, map[], "", "";
      msg := new Message();
    }

    /** The request stored for a stream. */
    constructor Of(r: Req)
      ensures State() == r && fresh(msg)
    {
      flags, id, metadata, rpc, service := r.flags, r.id, r.metadata, r.rpc, r.service;
      msg := new Message.Of(r.msg);
    }

    method AddHeader(name: string, value: string)
      modifies this
      ensures State() == ApplyHeader(old(State()), Header(name, value))
    {
      hide DecodeLength;
      if Invalid in flags {
        return;
      }
      if name == ":method" {
        flags := flags + {HeaderMethod};
        if value != "POST" {
          flags := flags + {Invalid};
        }
        return;
      }
      if name == ":path" {
        Path(value);
        return;
      }
      if name == "content-type" {
        flags := flags + {HeaderContentType};
        if !("application/grpc" <= value) {
          flags := flags + {Invalid};
        }
        return;
      }
      if ":" <= name || "grpc-" <= name {
        return;
      }
      if name !in metadata {
        metadata := metadata[name := value];
      }
    }

    method Path(value: string)
      modifies this
      ensures State() == ApplyPath(old(State()), value)
    {
      flags := flags + {HeaderPath};
      if value == "" || value[0] != '/' {
        flags := flags + {Invalid};
        return;
      }
      var n := FindFrom(value, '/', 1);
      if n.None? {
        flags := flags + {Invalid};
        return;
      }
      service := value[1..n.value];
      rpc := value[n.value + 1..];
      if rpc == "" {
        flags := flags + {Invalid};
      }
    }

    method Read(sign: CharSign, chunk: seq<byte>)
      modifies this, msg
      ensures State() == ApplyData(sign, old(State()), chunk)
    {
      hide DecodeLength;
      if Invalid in flags {
        return;
      }
      var ok := msg.Append(sign, chunk);
      if !ok {
        flags := flags + {Invalid};
      }
    }
  }
}
