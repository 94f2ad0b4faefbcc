/** Two peers keeping their clipboards in step.  A clipboard written on behalf of the other side carries
    an owner marker, and a marked clipboard is not read back. */
module ClipboardSync {
  import opened ByteData
  import opened ClipboardProto
  import opened Common

  const OWNER_FORMAT: string := "dyn.com.rustdesk.owner"
  const EXCEL_FORMAT: string := "XML Spreadsheet"

  datatype Side = Host | Client
  {
    function OwnerData(): (d: Bytes) { if Host? then [1] else [2] }

    function Other(): (s: Side) { if Host? then Client else Host }
  }

  /** Either side's mark counts, whoever asks. */
  predicate IsOwner(data: Bytes) {
    data != [] && data[0] % 4 != 0
  }

  predicate IsMarker(d: ClipboardData) {
    d.Special? && d.name == OWNER_FORMAT
  }

  predicate IsOwnerMarker(d: ClipboardData) {
    IsMarker(d) && IsOwner(d.data)
  }

  predicate Marked(content: seq<ClipboardData>) {
    exists d :: d in content && IsOwnerMarker(d)
  }

  /** The formats that are asked for. */
  predicate Readable(d: ClipboardData) {
    match d
    case Special(name, _) => name == EXCEL_FORMAT || name == OWNER_FORMAT
    case FileUrl(_) => false
    case NoData => false
    case _ => true
  }

  /** What is passed on: no marker and no empty text. */
  predicate Sendable(d: ClipboardData) {
    Readable(d) && !IsMarker(d) && !(d.Text? && d.text == [])
  }

  function Select(items: seq<ClipboardData>, p: ClipboardData -> bool): (s: seq<ClipboardData>)
    ensures forall d :: d in s <==> d in items && p(d)
  {
    if items == [] then []
    else Select(items[..|items| - 1], p) + (if p(items[|items| - 1]) then [items[|items| - 1]] else [])
  }

  /** What an outgoing message is made from. */
  ghost function ForSync(content: seq<ClipboardData>, force: bool): (s: seq<ClipboardData>) {
    if Marked(content) && !force then [] else Select(content, Sendable)
  }

  /** `append_owner_marker` */
  function WithOwnerMarker(data: seq<ClipboardData>, side: Side): (r: seq<ClipboardData>)
    ensures Marked(r) && |r| == |data| + 1 && r[..|data|] == data
    ensures r[|data|] == Special("dyn.com.rustdesk.owner", if side.Host? then [1] else [2])
  {
    var r := data + [Special(OWNER_FORMAT, side.OwnerData())];
    assert r[|data|] in r;
    r
  }

  // ----- the clipboard

  /** The search of an unforced read. */
  method HasOwnerMarker(data: seq<ClipboardData>) returns (marked: bool)
    ensures marked == Marked(data)
  {
    for i := 0 to |data|
      invariant forall j | 0 <= j < i :: !IsOwnerMarker(data[j])
    {
      if IsMarker(data[i]) && IsOwner(data[i].data) {
        assert data[i] in data;
        return true;
      }
    }
    return false;
  }

  /** The last filter of a read, over formats that were asked for. */
  method Filtered(data: seq<ClipboardData>) returns (r: seq<ClipboardData>)
    requires forall d | d in data :: Readable(d)
    ensures r == Select(data, Sendable)
  {
    r := [];
    for i := 0 to |data|
      invariant r == Select(data[..i], Sendable)
    {
      assert data[..i + 1][..i] == data[..i];
      assert data[i] in data;
      if !IsMarker(data[i]) && !(data[i].Text? && data[i].text == []) {
        r := r + [data[i]];
      }
    }
    assert data[..|data|] == data;
  }

  class ClipboardContext {
    var content: seq<ClipboardData>

    constructor ()
      ensures content == []
    {
      content := [];
    }

    /** `get_formats_filter`: reads the supported formats, gives up on a marked clipboard unless forced,
        and filters what is left. */
    method GetFormatsFilter(force: bool) returns (r: seq<ClipboardData>)
      ensures r == ForSync(content, force)
    {
      var data := Select(content, Readable);
      if !force {
        var marked := HasOwnerMarker(data);
        assert marked == Marked(content);
        if marked {
          return [];
        }
      }
      r := Filtered(data);
      SelectTwice(content);
    }

    /** `check_clipboard`: the message to send, if there is anything to send. */
    method CheckClipboard(c: Codec, force: bool) returns (msg: Option<seq<Clipboard>>)
      ensures msg == Outgoing(c, content, force)
    {
      var data := GetFormatsFilter(force);
      msg := if data == [] then None else Some(CreateMultiClipboards(c, data));
    }

    /** `update_clipboard_`: takes over what arrived; `works` says whether the clipboard accepts it. */
    method UpdateClipboard(c: Codec, msg: seq<Clipboard>, side: Side, works: bool)
      modifies this
      ensures content == Taken(c, old(content), msg, side, works)
      ensures var data := FromMultiClipboards(c, msg);
              if data == [] || !works then content == old(content)
              else |content| == |data| + 1 && content[..|data|] == data && IsMarker(content[|data|])
    {
      var data := FromMultiClipboards(c, msg);
      if data == [] {
        return;
      }
      data := WithOwnerMarker(data, side);
      if works {
        content := data;
      }
    }
  }

  /** Positions in increasing order. */
  predicate Increasing(at: seq<nat>) {
    forall i, j | 0 <= i < j < |at| :: at[i] < at[j]
  }

  /** Selecting keeps every item that meets the condition, each once and in order. */
  lemma {:induction false} SelectKeepsOrder(items: seq<ClipboardData>, p: ClipboardData -> bool)
    returns (at: seq<nat>)
    ensures |at| == |Select(items, p)| && Increasing(at)
    ensures forall i | 0 <= i < |at| :: at[i] < |items| && Select(items, p)[i] == items[at[i]]
    ensures forall k | 0 <= k < |items| && p(items[k]) :: k in at
  {
    if items == [] {
      at := [];
    } else {
      var init, last := items[..|items| - 1], items[|items| - 1];
      at := SelectKeepsOrder(init, p);
      ghost var before := at;
      if p(last) {
        at := at + [|items| - 1];
      }
      forall k | 0 <= k < |items| && p(items[k]) ensures k in at {
        if k < |items| - 1 {
          assert init[k] == items[k];
          assert k in before;
        } else {
          assert at[|before|] == k;
        }
      }
    }
  }

  /** What a read passes on of a clipboard: with an owner marker nothing unless forced, and otherwise all but
      empty text, file lists, the marker, and special formats other than the spreadsheet one. */
  lemma WhatIsSent(content: seq<ClipboardData>, force: bool, d: ClipboardData)
    ensures d in ForSync(content, force) <==>
            && d in content
            && (force || !exists m :: m in content && m.Special? && m.name == "dyn.com.rustdesk.owner"
                                      && m.data != [] && m.data[0] % 4 != 0)
            && match d
               case Text(text) => text != []
               case Rtf(_) => true
               case Html(_) => true
               case Image(_) => true
               case Special(name, _) => name == "XML Spreadsheet"
               case FileUrl(_) => false
               case NoData => false
  {
    if m :| m in content && m.Special? && m.name == "dyn.com.rustdesk.owner" && m.data != [] && m.data[0] % 4 != 0 {
      assert IsOwnerMarker(m);
    }
  }

  lemma {:induction false} SelectTwice(items: seq<ClipboardData>)
    ensures Select(Select(items, Readable), Sendable) == Select(items, Sendable)
  {
    if items != [] {
      var init, last := items[..|items| - 1], items[|items| - 1];
      SelectTwice(init);
      var s := Select(init, Readable);
      if Readable(last) {
        assert (s + [last])[..|s|] == s;
      } else {
        assert s + [] == s;
      }
    }
  }

  ghost function Outgoing(c: Codec, content: seq<ClipboardData>, force: bool): (msg: Option<seq<Clipboard>>) {
    var data := ForSync(content, force);
    if data == [] then None else Some(CreateMultiClipboards(c, data))
  }

  function Taken(c: Codec, content: seq<ClipboardData>, msg: seq<Clipboard>, side: Side, works: bool)
    : (content': seq<ClipboardData>)
  {
    var data := FromMultiClipboards(c, msg);
    if data == [] || !works then content else WithOwnerMarker(data, side)
  }

  // ----- runs of two peers

  /** Who wrote a clipboard last: nobody, a local application, or the other side. */
  datatype Origin = Nobody | Local(copied: seq<ClipboardData>) | Remote

  datatype Peer = Peer(content: seq<ClipboardData>, origin: Origin, inbox: seq<seq<Clipboard>>)

  /** An outgoing message and where the clipboard it was made from came from. */
  datatype Sent = Sent(side: Side, msg: seq<Clipboard>, origin: Origin)

  datatype Sync = Sync(host: Peer, client: Peer, sent: seq<Sent>)
  {
    function At(side: Side): (p: Peer) { if side.Host? then host else client }

    function With(side: Side, p: Peer): (s: Sync) { if side.Host? then this.(host := p) else this.(client := p) }
  }

  datatype Event =
    | Copy(side: Side, data: seq<ClipboardData>)
    | Check(side: Side, force: bool)
    | Deliver(side: Side, works: bool)

  const START: Sync := Sync(Peer([], Nobody, []), Peer([], Nobody, []), [])

  ghost function Step(c: Codec, s: Sync, e: Event): (s': Sync) {
    var p := s.At(e.side);
    match e
    case Copy(side, data) => s.With(side, p.(content := data, origin := Local(data)))
    case Check(side, force) =>
      var msg := Outgoing(c, p.content, force);
      if msg.None? then s
      else
        var q := s.At(side.Other());
        s.With(side.Other(), q.(inbox := q.inbox + [msg.value])).(sent := s.sent + [Sent(side, msg.value, p.origin)])
    case Deliver(side, works) =>
      if p.inbox == [] then s
      else
        var msg := p.inbox[0];
        var taken := works && FromMultiClipboards(c, msg) != [];
        s.With(side, Peer(Taken(c, p.content, msg, side, works), if taken then Remote else p.origin, p.inbox[1..]))
  }

  ghost function Run(c: Codec, events: seq<Event>): (s: Sync) {
    if events == [] then START else Step(c, Run(c, events[..|events| - 1]), events[|events| - 1])
  }

  /** A clipboard the other side wrote is marked; one a local application wrote is what was copied. */
  ghost predicate PeerSound(p: Peer) {
    match p.origin
    case Nobody => p.content == []
    case Local(copied) => p.content == copied
    case Remote => Marked(p.content)
  }

  /** The message carries exactly the sendable part of an unmarked local copy. */
  ghost predicate CarriesLocalCopy(c: Codec, m: Sent) {
    && m.origin.Local?
    && !Marked(m.origin.copied)
    && m.msg == CreateMultiClipboards(c, Select(m.origin.copied, Sendable))
  }

  predicate CarriesMarker(msg: seq<Clipboard>) {
    exists p :: p in msg && p.format == SpecialFormat && p.specialName == OWNER_FORMAT
  }

  ghost predicate Sound(c: Codec, s: Sync) {
    && PeerSound(s.host) && PeerSound(s.client)
    && (forall m | m in s.sent :: CarriesLocalCopy(c, m))
    && (forall m | m in s.sent :: !CarriesMarker(m.msg))
  }

  lemma {:induction false} MarkerIsNeverSent(c: Codec, items: seq<ClipboardData>)
    requires forall d | d in items :: !IsMarker(d)
    ensures !CarriesMarker(CreateMultiClipboards(c, items))
  {
    if items != [] {
      MarkerIsNeverSent(c, items[1..]);
      assert !IsMarker(items[0]);
    }
  }

  /** What a read gives, forced or not: an unforced read of a marked clipboard gives nothing, and this
      is the only thing forcing changes. */
  lemma ReadIsEmptyIff(c: Codec, p: Peer, force: bool)
    requires PeerSound(p) && p.origin.Remote?
    ensures Outgoing(c, p.content, force).Some? <==> force && Select(p.content, Sendable) != []
  {
  }

  lemma CheckKeepsSound(c: Codec, s: Sync, side: Side)
    requires Sound(c, s)
    ensures Sound(c, Step(c, s, Check(side, false)))
  {
    var p := s.At(side);
    MarkerIsNeverSent(c, ForSync(p.content, false));
  }

  lemma StepKeepsSound(c: Codec, s: Sync, e: Event)
    requires Sound(c, s) && !(e.Check? && e.force)
    ensures Sound(c, Step(c, s, e))
  {
    if e.Check? {
      CheckKeepsSound(c, s, e.side);
    }
  }

  predicate Unforced(events: seq<Event>) {
    forall i | 0 <= i < |events| && events[i].Check? :: !events[i].force
  }

  /** In every run without forced reads, each outgoing message carries a local unmarked copy and never
      what came from the other side, and the marker itself is never sent. */
  lemma {:induction false} NothingEchoes(c: Codec, events: seq<Event>)
    requires Unforced(events)
    ensures Sound(c, Run(c, events))
  {
    if events != [] {
      NothingEchoes(c, events[..|events| - 1]);
      StepKeepsSound(c, Run(c, events[..|events| - 1]), events[|events| - 1]);
    }
  }

  /** What makes a copy survive the wire unchanged. */
  ghost predicate Transportable(c: Codec, data: seq<ClipboardData>) {
    Lawful(c) && forall d | d in data :: ValidStrings(c, d) && SoundImage(d)
  }

  lemma {:induction false} SendableAreSupported(items: seq<ClipboardData>)
    requires forall d | d in items :: Sendable(d)
    ensures SupportedItems(items) == items
  {
    if items != [] {
      SendableAreSupported(items[1..]);
      assert Sendable(items[0]);
    }
  }

  /** Not echoing is not bought by sending nothing: a local copy that is checked and delivered arrives on
      the other side, which then holds exactly its sendable part and the marker, and does not send it back. */
  lemma CopyArrives(c: Codec, s: Sync, side: Side, data: seq<ClipboardData>)
    requires Transportable(c, data) && !Marked(data) && Select(data, Sendable) != []
    requires s.At(side.Other()).inbox == []
    ensures var s1 := Step(c, s, Copy(side, data));
            var s2 := Step(c, s1, Check(side, false));
            var s3 := Step(c, s2, Deliver(side.Other(), true));
            var items := s3.At(side.Other()).content;
            && |s2.sent| == |s.sent| + 1
            && items == Select(data, Sendable) + [Special("dyn.com.rustdesk.owner", if side.Host? then [2] else [1])]
            && Step(c, s3, Check(side.Other(), false)) == s3
  {
    var items := Select(data, Sendable);
    SendableAreSupported(items);
    ListRoundTrip(c, items);
    assert FromMultiClipboards(c, CreateMultiClipboards(c, items)) == items;
    assert ForSync(data, false) == items;
    assert Marked(WithOwnerMarker(items, side.Other()));
  }
}
