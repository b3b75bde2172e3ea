/**
  The blockwise follow-up of src/compute_engine/gcoap_cli.c: the command that saves the request
  path, the response handler that asks for the next block, and a whole transfer against a server
  that follows section 2.4 of RFC 7959.
 */
module Blockwise {
  import opened Wrappers

  const LAST_REQ_PATH_MAX: nat := 64

  datatype Code = Ping | Get | Post | Put

  datatype Target = Path(path: string) | ProxyUri(uri: string)

  /** A request, with the block number of its Block2 option if it carries one. */
  datatype Request = Request(code: Code, target: Target, block: Option<nat>)

  datatype Block = Block(num: nat, more: bool)

  /** What the request layer reports to the response handler. */
  datatype Event = Timeout | Failure | Reply(payload: string, block: Option<Block>)

  /** What the client reports of a response. */
  datatype Status = TimedOut | Failed | NotBlockwise | PathTooLong | Continues | Complete

  // ---------- The client ----------

  /** The path kept for follow-up requests: only if it leaves room for its terminator. */
  function SavedPath(uri: string): string {
    if |uri| < LAST_REQ_PATH_MAX then uri else ""
  }

  /** What a buffer of that size holds: the text, or its longest prefix that leaves room for the terminator. */
  function Truncated(text: string): (t: string)
    ensures t <= text && |t| == if |text| < LAST_REQ_PATH_MAX then |text| else LAST_REQ_PATH_MAX - 1
  {
    if |text| < LAST_REQ_PATH_MAX then text else text[..LAST_REQ_PATH_MAX - 1]
  }

  /** Where a path, or through a proxy a whole URI, goes in a request. */
  function TargetOf(proxied: bool, path: string): Target {
    if proxied then ProxyUri(path) else Path(path)
  }

  function FollowUp(lastReqPath: string, proxied: bool, num: nat): Request {
    Request(Get, TargetOf(proxied, lastReqPath), Some(num + 1))
  }

  function NextRequest(lastReqPath: string, proxied: bool, event: Event): Option<Request> {
    match event
    case Reply(_, Some(Block(num, true))) =>
      if num == 0 && lastReqPath == "" then None else Some(FollowUp(lastReqPath, proxied, num))
    case _ => None
  }

  function StatusAfter(lastReqPath: string, event: Event): Status {
    match event
    case Reply(_, Some(Block(num, true))) => if num == 0 && lastReqPath == "" then PathTooLong else Continues
    case Reply(_, Some(Block(_, false))) => Complete
    case Reply(_, None) => NotBlockwise
    case Timeout => TimedOut
    case Failure => Failed
  }

  function PrintedBy(event: Event): string {
    if event.Reply? then event.payload else ""
  }

  class GcoapCli {
    var proxied: bool
    var lastReqPath: string
    var reqCount: nat
    var printed: string

    constructor ()
      ensures !proxied && lastReqPath == "" && reqCount == 0 && printed == ""
    {
      proxied, lastReqPath, reqCount, printed := false, "", 0, "";
    }

    /**
      get, post, put or ping; a ping has no path argument, and nullText is what the C library prints
      for a null string; sent says whether the stack took the message.
     */
    method Command(code: Code, address: string, port: string, path: string, nullText: string, sent: bool)
      returns (request: Request)
      modifies this`lastReqPath, this`reqCount
      ensures !proxied ==>
                var uri := if code == Ping then "" else path;
                lastReqPath == SavedPath(uri) && request == Request(code, Path(uri), None)
      ensures proxied ==>
                var uri := "coap://[" + address + "]:" + port + if code == Ping then nullText else path;
                lastReqPath == SavedPath(uri) && request == Request(code, ProxyUri(Truncated(uri)), None)
      ensures reqCount == if sent then (old(reqCount) + 1) % 65536 else old(reqCount)
    {
      var uri, uriLen := "", 0;
      if code != Ping {
        uri := path;
        uriLen := |path|;
      }
      if proxied {
        var full := "coap://[" + address + "]:" + port + if code == Ping then nullText else uri;
        uriLen := |full|;
        uri := Truncated(full);
        request := Request(code, ProxyUri(uri), None);
      } else {
        request := Request(code, Path(uri), None);
      }
      lastReqPath := "";
      if uriLen < LAST_REQ_PATH_MAX {
        lastReqPath := uri[..uriLen];
      }
      if sent {
        reqCount := (reqCount + 1) % 65536;
      }
    }

    /** The response handler. */
    method OnResponse(event: Event) returns (next: Option<Request>, status: Status)
      modifies this`printed
      ensures next == NextRequest(lastReqPath, proxied, event)
      ensures status == StatusAfter(lastReqPath, event)
      ensures printed == old(printed) + PrintedBy(event)
      ensures var block := if event.Reply? then event.block else None;
              && (status == TimedOut <==> event.Timeout?)
              && (status == Failed <==> event.Failure?)
              && (status == NotBlockwise <==> event.Reply? && block.None?)
              && (status == Complete <==> block.Some? && !block.value.more)
              && (status == PathTooLong <==>
                    block.Some? && block.value.more && block.value.num == 0 && lastReqPath == "")
              && (next.Some? <==> status == Continues)
              && (next.Some? ==>
                    next.value == Request(Get, if proxied then ProxyUri(lastReqPath) else Path(lastReqPath),
                                          Some(block.value.num + 1)))
      ensures printed == if event.Reply? then old(printed) + event.payload else old(printed)
    {
      if event.Timeout? {
        return None, TimedOut;
      }
      if event.Failure? {
        return None, Failed;
      }
      printed := printed + event.payload;
      if event.block.None? {
        return None, NotBlockwise;
      }
      var block := event.block.value;
      if !block.more {
        return None, Complete;
      }
      if block.num == 0 && |lastReqPath| == 0 {
        return None, PathTooLong;
      }
      var target := if proxied then ProxyUri(lastReqPath) else Path(lastReqPath);
      block := block.(num := block.num + 1);
      return Some(Request(Get, target, Some(block.num))), Continues;
    }
  }

  // ---------- The server ----------

  /**
    A resource served in blocks of a fixed size, under a path, or through a proxy under a whole URI; a
    body of one block may come without the option.
   */
  datatype Resource = Resource(proxied: bool, path: string, body: string, size: nat, optionAlways: bool)

  /** Where block num starts: num blocks of the given size further on. */
  function Offset(num: nat, size: nat): nat {
    if num == 0 then 0 else Offset(num - 1, size) + size
  }

  lemma {:induction false} OffsetIsProduct(num: nat, size: nat)
    ensures Offset(num, size) == num * size
  {
    if num > 0 {
      OffsetIsProduct(num - 1, size);
      assert num * size == (num - 1) * size + size;
    }
  }

  function Min(x: nat, y: nat): nat {
    if x < y then x else y
  }

  /** Block num of the body, and whether more follow. */
  function Serve(r: Resource, request: Request): Event {
    var num := if request.block.None? then 0 else request.block.value;
    var start, stop := Offset(num, r.size), Offset(num + 1, r.size);
    if request.code != Get || request.target != TargetOf(r.proxied, r.path) || start > Min(stop, |r.body|) then Failure
    else if request.block.None? && |r.body| <= r.size && !r.optionAlways then Reply(r.body, None)
    else Reply(r.body[start..Min(stop, |r.body|)], Some(Block(num, stop < |r.body|)))
  }

  // ---------- A whole transfer ----------

  datatype Trace = Trace(requests: seq<Request>, printed: string, status: Status)

  /**
    A transfer from its request for block num on; lost says which replies never arrive. The
    blocks that remain bound the number of requests.
   */
  ghost function Transfer(saved: string, r: Resource, request: Request, num: nat, lost: nat -> bool): (t: Trace)
    requires r.size > 0 && request.block == (if num == 0 then None else Some(num))
    decreases if Offset(num, r.size) < |r.body| then |r.body| - Offset(num, r.size) else 0
  {
    var event := if lost(num) then Timeout else Serve(r, request);
    var next, status := NextRequest(saved, r.proxied, event), StatusAfter(saved, event);
    if next.None? then Trace([request], PrintedBy(event), status)
    else
      var rest := Transfer(saved, r, next.value, num + 1, lost);
      Trace([request] + rest.requests, PrintedBy(event) + rest.printed, rest.status)
  }

  /** The request that a GET command sends first: a URI for the proxy is cut to its buffer. */
  function FirstRequest(r: Resource): Request {
    Request(Get, if r.proxied then ProxyUri(Truncated(r.path)) else Path(r.path), None)
  }

  /** The transfer that one GET command starts. */
  ghost function GetTransfer(r: Resource, lost: nat -> bool): Trace
    requires r.size > 0
  {
    Transfer(SavedPath(r.path), r, FirstRequest(r), 0, lost)
  }

  /** The request for block num of the resource. */
  function BlockRequest(r: Resource, num: nat): Request {
    Request(Get, TargetOf(r.proxied, r.path), if num == 0 then None else Some(num))
  }

  /** Whether the first request names the resource. */
  predicate Reaches(r: Resource) {
    !r.proxied || |r.path| < LAST_REQ_PATH_MAX
  }

  predicate Saves(saved: string, r: Resource, num: nat) {
    saved == r.path || (saved == "" && num == 0)
  }

  /** The part of the body in block num. */
  function BlockText(r: Resource, num: nat): string
    requires Offset(num, r.size) <= |r.body|
  {
    r.body[Offset(num, r.size)..Min(Offset(num + 1, r.size), |r.body|)]
  }

  /** The last block is the rest of the body; a block before it is followed by the rest from the next. */
  lemma BlockInBody(r: Resource, num: nat)
    requires Offset(num, r.size) <= |r.body|
    ensures var rest := r.body[Offset(num, r.size)..];
            && BlockText(r, num) <= rest
            && (Offset(num + 1, r.size) >= |r.body| ==> BlockText(r, num) == rest)
            && (Offset(num + 1, r.size) < |r.body| ==>
                  rest == BlockText(r, num) + r.body[Offset(num + 1, r.size)..])
  {
    var start, stop := Offset(num, r.size), Offset(num + 1, r.size);
    if stop < |r.body| {
      assert r.body[start..] == r.body[start..stop] + r.body[stop..];
    } else {
      assert r.body[start..|r.body|] == r.body[start..];
    }
  }

  /** One exchange: what is printed and what is asked for next. */
  lemma OneExchange(saved: string, r: Resource, num: nat, lost: bool)
    requires Saves(saved, r, num) && Offset(num, r.size) <= |r.body|
    ensures var event := if lost then Timeout else Serve(r, BlockRequest(r, num));
            var stop := Offset(num + 1, r.size);
            && PrintedBy(event) == (if lost then "" else BlockText(r, num))
            && (NextRequest(saved, r.proxied, event).Some? ==>
                  !lost && stop < |r.body| && Saves(saved, r, num + 1) &&
                  NextRequest(saved, r.proxied, event).value == BlockRequest(r, num + 1))
            && (!lost && stop < |r.body| && saved != "" ==> NextRequest(saved, r.proxied, event).Some?)
            && (StatusAfter(saved, event) == Complete ==> !lost && stop >= |r.body|)
  {
  }

  /** A transfer is its first exchange followed by the transfer from the next block, if one is asked for. */
  lemma TransferStep(saved: string, r: Resource, num: nat, lost: nat -> bool)
    requires r.size > 0 && Saves(saved, r, num) && Offset(num, r.size) <= |r.body|
    ensures var event := if lost(num) then Timeout else Serve(r, BlockRequest(r, num));
            var printed := PrintedBy(event);
            && BlockRequest(r, num).block == (if num == 0 then None else Some(num))
            && BlockRequest(r, num + 1).block == Some(num + 1)
            && Transfer(saved, r, BlockRequest(r, num), num, lost) ==
                 if NextRequest(saved, r.proxied, event).None?
                 then Trace([BlockRequest(r, num)], printed, StatusAfter(saved, event))
                 else
                   var rest := Transfer(saved, r, BlockRequest(r, num + 1), num + 1, lost);
                   Trace([BlockRequest(r, num)] + rest.requests, printed + rest.printed, rest.status)
  {
    OneExchange(saved, r, num, lost(num));
    assert BlockRequest(r, num).block == if num == 0 then None else Some(num);
    assert BlockRequest(r, num + 1).block == Some(num + 1);
    hide Serve, StatusAfter, BlockRequest, Saves, Min, NextRequest, PrintedBy;
  }

  /** The requests for the blocks from num on, one after the other. */
  predicate Consecutive(r: Resource, num: nat, requests: seq<Request>)
    decreases |requests|
  {
    requests == [] || (requests[0] == BlockRequest(r, num) && Consecutive(r, num + 1, requests[1..]))
  }

  lemma {:induction false} ConsecutiveAt(r: Resource, num: nat, requests: seq<Request>, i: nat)
    requires Consecutive(r, num, requests) && i < |requests|
    ensures requests[i] == BlockRequest(r, num + i)
    decreases i
  {
    if i > 0 { ConsecutiveAt(r, num + 1, requests[1..], i - 1); }
  }

  lemma {:induction false} RequestsFrom(saved: string, r: Resource, num: nat, lost: nat -> bool)
    requires r.size > 0 && Saves(saved, r, num) && Offset(num, r.size) <= |r.body|
    ensures Consecutive(r, num, Transfer(saved, r, BlockRequest(r, num), num, lost).requests)
    decreases |r.body| - Offset(num, r.size)
  {
    OneExchange(saved, r, num, lost(num));
    TransferStep(saved, r, num, lost);
    hide Serve, StatusAfter, BlockRequest, Saves, Min, NextRequest, PrintedBy, Transfer;
    var event := if lost(num) then Timeout else Serve(r, BlockRequest(r, num));
    if NextRequest(saved, r.proxied, event).Some? {
      RequestsFrom(saved, r, num + 1, lost);
      var rest := Transfer(saved, r, BlockRequest(r, num + 1), num + 1, lost).requests;
      assert ([BlockRequest(r, num)] + rest)[1..] == rest;
    }
  }

  lemma JoinBlocks(first: string, body: string, rest: string)
    requires rest <= body
    ensures first + rest <= first + body
    ensures rest == body ==> first + rest == first + body
  {
  }

  /** A transfer from block num on prints at most that block and stops, or prints it and goes on. */
  lemma PrintsBlock(saved: string, r: Resource, num: nat, lost: nat -> bool)
    requires r.size > 0 && Saves(saved, r, num) && Offset(num, r.size) <= |r.body|
    ensures var t, rest := Transfer(saved, r, BlockRequest(r, num), num, lost),
                           Transfer(saved, r, BlockRequest(r, num + 1), num + 1, lost);
            || (t.printed <= BlockText(r, num) &&
                (t.status == Complete ==> t.printed == BlockText(r, num) && Offset(num + 1, r.size) >= |r.body|))
            || (Offset(num + 1, r.size) < |r.body| && Saves(saved, r, num + 1) &&
                t.printed == BlockText(r, num) + rest.printed && t.status == rest.status)
  {
    OneExchange(saved, r, num, lost(num));
    TransferStep(saved, r, num, lost);
    hide Serve, StatusAfter, BlockRequest, BlockText, Saves, NextRequest, PrintedBy, Transfer, Min, Offset;
  }

  lemma {:induction false} PrintedFrom(saved: string, r: Resource, num: nat, lost: nat -> bool)
    requires r.size > 0 && Saves(saved, r, num) && Offset(num, r.size) <= |r.body|
    ensures var t, rest := Transfer(saved, r, BlockRequest(r, num), num, lost), r.body[Offset(num, r.size)..];
            t.printed <= rest && (t.status == Complete ==> t.printed == rest)
    decreases |r.body| - Offset(num, r.size)
  {
    hide BlockText, Saves, Transfer;
    PrintsBlock(saved, r, num, lost);
    BlockInBody(r, num);
    if Offset(num + 1, r.size) < |r.body| && Saves(saved, r, num + 1) {
      PrintedFrom(saved, r, num + 1, lost);
      JoinBlocks(BlockText(r, num), r.body[Offset(num + 1, r.size)..],
                 Transfer(saved, r, BlockRequest(r, num + 1), num + 1, lost).printed);
    }
  }

  lemma StartOf(r: Resource)
    ensures Reaches(r) ==> FirstRequest(r) == BlockRequest(r, 0)
    ensures Saves(SavedPath(r.path), r, 0)
  {
  }

  /** A URI that the proxy's buffer cuts names no resource: one request, and an error or a timeout. */
  lemma Unreached(r: Resource, lost: nat -> bool)
    requires r.size > 0 && !Reaches(r)
    ensures GetTransfer(r, lost) == Trace([FirstRequest(r)], "", if lost(0) then TimedOut else Failed)
  {
    assert |Truncated(r.path)| < |r.path|;
  }

  /** Block numbers 0, 1, 2, ... without gap or repeat, all for the original target, whichever replies are lost. */
  lemma RequestsInOrder(r: Resource, lost: nat -> bool, i: nat)
    requires r.size > 0 && i < |GetTransfer(r, lost).requests|
    ensures var request := GetTransfer(r, lost).requests[i];
            && request.code == Get
            && request.block == (if i == 0 then None else Some(i))
            && (i > 0 || |r.path| < 64 || !r.proxied ==>
                  request.target == if r.proxied then ProxyUri(r.path) else Path(r.path))
  {
    if Reaches(r) {
      StartOf(r);
      RequestsFrom(SavedPath(r.path), r, 0, lost);
      ConsecutiveAt(r, 0, GetTransfer(r, lost).requests, i);
      hide Transfer, SavedPath;
    } else {
      Unreached(r, lost);
      hide Transfer;
    }
  }

  /** What is printed is always a prefix of the body, and the whole of it on "complete". */
  lemma PrintsPrefix(r: Resource, lost: nat -> bool)
    requires r.size > 0
    ensures GetTransfer(r, lost).printed <= r.body
    ensures GetTransfer(r, lost).status == Complete ==> GetTransfer(r, lost).printed == r.body
  {
    if Reaches(r) {
      StartOf(r);
      hide Transfer, SavedPath, BlockRequest, FirstRequest;
      PrintedFrom(SavedPath(r.path), r, 0, lost);
      assert r.body[0..] == r.body;
    } else {
      Unreached(r, lost);
      hide Transfer;
    }
  }

  /** When nothing is lost and the path is saved, the block is printed and the transfer goes on to the last. */
  lemma PrintsNextBlock(r: Resource, num: nat, lost: nat -> bool)
    requires r.size > 0 && Offset(num, r.size) < |r.body| && r.path != "" && !lost(num)
    ensures var t, rest := Transfer(r.path, r, BlockRequest(r, num), num, lost),
                           Transfer(r.path, r, BlockRequest(r, num + 1), num + 1, lost);
            t.printed == BlockText(r, num) + if Offset(num + 1, r.size) < |r.body| then rest.printed else ""
  {
    OneExchange(r.path, r, num, false);
    TransferStep(r.path, r, num, lost);
    hide Serve, StatusAfter, BlockRequest, BlockText, Saves, NextRequest, PrintedBy, Transfer, Min, Offset;
    assert BlockText(r, num) + "" == BlockText(r, num);
  }

  lemma {:induction false} NothingLostFrom(r: Resource, num: nat, lost: nat -> bool)
    requires r.size > 0 && Offset(num, r.size) < |r.body| && r.path != ""
    requires forall k :: !lost(k)
    ensures Transfer(r.path, r, BlockRequest(r, num), num, lost).printed == r.body[Offset(num, r.size)..]
    decreases |r.body| - Offset(num, r.size)
  {
    hide BlockRequest, BlockText, Transfer;
    assert !lost(num);
    PrintsNextBlock(r, num, lost);
    BlockInBody(r, num);
    if Offset(num + 1, r.size) < |r.body| {
      NothingLostFrom(r, num + 1, lost);
    }
  }

  /**
    When nothing is lost, the whole body is printed exactly when it is empty, or the first request
    names the resource and the body fits one block or the path could be saved: neither empty nor
    longer than 63 characters.
   */
  lemma CompletesIff(r: Resource, lost: nat -> bool)
    requires r.size > 0 && forall k :: !lost(k)
    ensures GetTransfer(r, lost).printed == r.body <==>
              || r.body == ""
              || ((!r.proxied || |r.path| < 64) && (|r.body| <= r.size || 0 < |r.path| < 64))
    ensures (!r.proxied || |r.path| < 64) && |r.body| > r.size && !(0 < |r.path| < 64) ==>
              GetTransfer(r, lost) == Trace([BlockRequest(r, 0)], r.body[..r.size], PathTooLong)
  {
    assert !lost(0);
    if !Reaches(r) {
      Unreached(r, lost);
    } else if |r.body| > r.size && 0 < |r.path| < LAST_REQ_PATH_MAX {
      NothingLostFrom(r, 0, lost);
    }
  }

  // ---------- What is reported ----------

  lemma {:induction false} OffsetGrows(i: nat, j: nat, size: nat)
    requires i <= j
    ensures Offset(i, size) <= Offset(j, size)
    decreases j
  {
    if i < j { OffsetGrows(i, j - 1, size); }
  }

  ghost predicate AllArrive(r: Resource, num: nat, lost: nat -> bool) {
    forall k: nat :: k >= num && Offset(k, r.size) < |r.body| ==> !lost(k)
  }

  lemma AllArriveStep(r: Resource, num: nat, lost: nat -> bool)
    requires Offset(num, r.size) < |r.body|
    ensures lost(num) ==> !AllArrive(r, num, lost)
    ensures !lost(num) ==> (AllArrive(r, num, lost) <==> AllArrive(r, num + 1, lost))
    ensures Offset(num + 1, r.size) >= |r.body| ==> AllArrive(r, num + 1, lost)
  {
    forall k: nat | k >= num + 1
      ensures Offset(num + 1, r.size) <= Offset(k, r.size)
    {
      OffsetGrows(num + 1, k, r.size);
    }
  }

  /** One exchange of a blockwise transfer with a saved path: a timeout, the next one, or the end. */
  lemma ReportOfBlock(r: Resource, num: nat, lost: nat -> bool)
    requires r.size > 0 && Offset(num, r.size) < |r.body| && r.path != "" && (num > 0 || |r.body| > r.size)
    ensures Transfer(r.path, r, BlockRequest(r, num), num, lost).status ==
            if lost(num) then TimedOut
            else if Offset(num + 1, r.size) < |r.body|
            then Transfer(r.path, r, BlockRequest(r, num + 1), num + 1, lost).status else Complete
  {
    OneExchange(r.path, r, num, lost(num));
    TransferStep(r.path, r, num, lost);
    hide Transfer;
  }

  lemma {:induction false} ReportFrom(r: Resource, num: nat, lost: nat -> bool)
    requires r.size > 0 && Offset(num, r.size) < |r.body| && r.path != "" && (num > 0 || |r.body| > r.size)
    ensures Transfer(r.path, r, BlockRequest(r, num), num, lost).status ==
            if AllArrive(r, num, lost) then Complete else TimedOut
    decreases |r.body| - Offset(num, r.size)
  {
    hide Transfer, BlockRequest, AllArrive;
    ReportOfBlock(r, num, lost);
    AllArriveStep(r, num, lost);
    if !lost(num) && Offset(num + 1, r.size) < |r.body| { ReportFrom(r, num + 1, lost); }
  }

  lemma ArriveByProduct(r: Resource, lost: nat -> bool)
    ensures AllArrive(r, 0, lost) <==> forall k: nat :: k * r.size < |r.body| ==> !lost(k)
  {
    forall k: nat
      ensures Offset(k, r.size) == k * r.size
    {
      OffsetIsProduct(k, r.size);
    }
  }

  /**
    What the client reports at the end of a transfer, whichever replies are lost: complete exactly when
    every block arrived and either there are several and the path was saved, or the only one carries
    the option.
   */
  lemma ReportedStatus(r: Resource, lost: nat -> bool)
    requires r.size > 0
    ensures var status := GetTransfer(r, lost).status;
            var saved := 0 < |r.path| < 64;
            status ==
              if lost(0) then TimedOut
              else if r.proxied && |r.path| >= 64 then Failed
              else if |r.body| <= r.size then (if r.optionAlways then Complete else NotBlockwise)
              else if !saved then PathTooLong
              else if forall k: nat :: k * r.size < |r.body| ==> !lost(k) then Complete
              else TimedOut
  {
    if !Reaches(r) {
      Unreached(r, lost);
    } else if |r.body| > r.size && 0 < |r.path| < LAST_REQ_PATH_MAX {
      StartOf(r);
      ReportFrom(r, 0, lost);
      ArriveByProduct(r, lost);
      hide Transfer;
    } else {
      StartOf(r);
    }
  }

  // ---------- How many requests ----------

  ghost function BlocksOf(length: nat, size: nat): nat
    requires size > 0
  {
    if length <= size then 1 else 1 + BlocksOf(length - size, size)
  }

  /** No transfer sends more requests than the body has blocks. */
  lemma {:induction false} RequestsBounded(saved: string, r: Resource, request: Request, num: nat, lost: nat -> bool)
    requires r.size > 0 && request.block == (if num == 0 then None else Some(num))
    ensures |Transfer(saved, r, request, num, lost).requests| <=
            BlocksOf(if Offset(num, r.size) < |r.body| then |r.body| - Offset(num, r.size) else 0, r.size)
    decreases if Offset(num, r.size) < |r.body| then |r.body| - Offset(num, r.size) else 0
  {
    var event := if lost(num) then Timeout else Serve(r, request);
    var next := NextRequest(saved, r.proxied, event);
    if next.Some? {
      RequestsBounded(saved, r, next.value, num + 1, lost);
    }
  }
}
