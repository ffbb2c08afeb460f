/**
 * The renderer side of a conversion: comparing buffers, the table of live 'gpu-dataURL'
 * listeners that wait for a matching response, and the image component that picks its source.
 */
module ImageContainer {
  import opened Ipc

  // ---------------------------------------------------------------------------------------------
  // Buffer equality

  /** Same length and the same byte at every index. */
  predicate BuffersEqual(a: Buffer, b: Buffer)
  {
    |a| == |b| && forall i :: 0 <= i < |a| ==> a[i] == b[i]
  }

  /** Content equality of buffers is equality of their byte sequences, hence reflexive and symmetric. */
  lemma BuffersEqualIsEquality(a: Buffer, b: Buffer)
    ensures BuffersEqual(a, b) <==> a == b
    ensures BuffersEqual(a, a)
    ensures BuffersEqual(a, b) == BuffersEqual(b, a)
  {
    if BuffersEqual(a, b) {
      assert forall i :: 0 <= i < |a| ==> a[i] == b[i];
    }
  }

  /** Any length mismatch, empty against non-empty included, makes the buffers unequal. */
  lemma LengthMismatchIsUnequal(a: Buffer, b: Buffer)
    requires |a| != |b|
    ensures !BuffersEqual(a, b)
  {
  }

  /**
   * `areBuffersEqual`: the length check first, then a scan that stops at the first differing byte.
   * `compared` counts the bytes read: none on a length mismatch, up to and including the first
   * difference otherwise.
   */
  method AreBuffersEqual(buf1: Buffer, buf2: Buffer) returns (equal: bool, ghost compared: nat)
    ensures equal == BuffersEqual(buf1, buf2)
    ensures equal <==> buf1 == buf2
    ensures |buf1| != |buf2| ==> !equal && compared == 0
    ensures equal ==> compared == |buf1|
    ensures !equal && |buf1| == |buf2| ==>
      0 < compared <= |buf1| && buf1[..compared - 1] == buf2[..compared - 1] && buf1[compared - 1] != buf2[compared - 1]
  {
    if |buf1| != |buf2| {
      return false, 0;
    }
    var i := 0;
    while i != |buf1|
      invariant 0 <= i <= |buf1|
      invariant buf1[..i] == buf2[..i]
    {
      if buf1[i] != buf2[i] {
        return false, i + 1;
      }
      assert buf1[..i + 1] == buf1[..i] + [buf1[i]] && buf2[..i + 1] == buf2[..i] + [buf2[i]];
      i := i + 1;
    }
    assert buf1 == buf1[..i] && buf2 == buf2[..i];
    return true, |buf1|;
  }

  // ---------------------------------------------------------------------------------------------
  // The table of live listeners

  /** Identity of one `convertDDSImage` promise; it travels in no message. */
  type PromiseId = nat

  /** A live 'gpu-dataURL' listener: the promise it will settle and the buffer it was created for. */
  datatype Pending = Pending(promise: PromiseId, contents: Buffer)

  /** `resolve(dataURL)` on a promise. */
  datatype Settlement = Settlement(promise: PromiseId, dataURL: string)

  /** The listeners that survive a delivery of `response`: those whose buffer differs, in order. */
  function Kept(table: seq<Pending>, response: Buffer): (r: seq<Pending>)
    ensures |r| <= |table|
    decreases |table|
  {
    if table == [] then []
    else
      var last := table[|table| - 1];
      Kept(table[..|table| - 1], response) + (if last.contents == response then [] else [last])
  }

  /** The settlements a delivery of `(response, dataURL)` makes: one per listener whose buffer matches, in order. */
  function Resolutions(table: seq<Pending>, response: Buffer, dataURL: string): (r: seq<Settlement>)
    ensures |Kept(table, response)| + |r| == |table|
    decreases |table|
  {
    if table == [] then []
    else
      var last := table[|table| - 1];
      Resolutions(table[..|table| - 1], response, dataURL)
        + (if last.contents == response then [Settlement(last.promise, dataURL)] else [])
  }

  /** A listener survives a delivery exactly when it was live and its buffer differs from the response. */
  lemma {:induction false} KeptMember(table: seq<Pending>, response: Buffer, p: Pending)
    ensures p in Kept(table, response) <==> p in table && p.contents != response
    decreases |table|
  {
    if table != [] {
      var init := table[..|table| - 1];
      assert table == init + [table[|table| - 1]];
      KeptMember(init, response, p);
    }
  }

  /** A settlement is made exactly for a live listener whose buffer equals the response, with the response's data URL. */
  lemma {:induction false} ResolutionMember(table: seq<Pending>, response: Buffer, dataURL: string, s: Settlement)
    ensures s in Resolutions(table, response, dataURL) <==> s.dataURL == dataURL && Pending(s.promise, response) in table
    decreases |table|
  {
    if table != [] {
      var init := table[..|table| - 1];
      assert table == init + [table[|table| - 1]];
      ResolutionMember(init, response, dataURL, s);
    }
  }

  /** How many live listeners belong to promise `id`. */
  function PendingCount(table: seq<Pending>, id: PromiseId): nat
    decreases |table|
  {
    if table == [] then 0
    else PendingCount(table[..|table| - 1], id) + (if table[|table| - 1].promise == id then 1 else 0)
  }

  /** How many settlements belong to promise `id`. */
  function SettledCount(settled: seq<Settlement>, id: PromiseId): nat
    decreases |settled|
  {
    if settled == [] then 0
    else SettledCount(settled[..|settled| - 1], id) + (if settled[|settled| - 1].promise == id then 1 else 0)
  }

  lemma PendingCountSnoc(table: seq<Pending>, p: Pending, id: PromiseId)
    ensures PendingCount(table + [p], id) == PendingCount(table, id) + (if p.promise == id then 1 else 0)
  {
    assert (table + [p])[..|table|] == table;
  }

  lemma {:induction false} SettledCountAppend(a: seq<Settlement>, b: seq<Settlement>, id: PromiseId)
    ensures SettledCount(a + b, id) == SettledCount(a, id) + SettledCount(b, id)
    decreases |b|
  {
    if b != [] {
      var init, last := b[..|b| - 1], b[|b| - 1];
      assert (a + b)[..|a + b| - 1] == a + init;
      assert (a + b)[|a + b| - 1] == last;
      SettledCountAppend(a, init, id);
    } else {
      assert a + b == a;
    }
  }

  /** A promise none of whose entries is in the table has count zero there. */
  lemma {:induction false} PendingCountAbsent(table: seq<Pending>, id: PromiseId)
    requires forall k :: 0 <= k < |table| ==> table[k].promise != id
    ensures PendingCount(table, id) == 0
    decreases |table|
  {
    if table != [] {
      PendingCountAbsent(table[..|table| - 1], id);
    }
  }

  lemma {:induction false} SettledCountAbsent(settled: seq<Settlement>, id: PromiseId)
    requires forall k :: 0 <= k < |settled| ==> settled[k].promise != id
    ensures SettledCount(settled, id) == 0
    decreases |settled|
  {
    if settled != [] {
      SettledCountAbsent(settled[..|settled| - 1], id);
    }
  }

  /** An entry at index `k` contributes to its promise's count. */
  lemma {:induction false} PendingCountPresent(table: seq<Pending>, k: nat)
    requires k < |table|
    ensures PendingCount(table, table[k].promise) >= 1
    decreases |table|
  {
    if k < |table| - 1 {
      PendingCountPresent(table[..|table| - 1], k);
    }
  }

  lemma {:induction false} SettledCountPresent(settled: seq<Settlement>, k: nat)
    requires k < |settled|
    ensures SettledCount(settled, settled[k].promise) >= 1
    decreases |settled|
  {
    if k < |settled| - 1 {
      SettledCountPresent(settled[..|settled| - 1], k);
    }
  }

  /** The first `k + 1` listeners act as the first `k` followed by listener `k`. */
  lemma DeliveryStep(table: seq<Pending>, k: nat, response: Buffer, dataURL: string)
    requires k < |table|
    ensures Kept(table[..k + 1], response)
         == Kept(table[..k], response) + (if table[k].contents == response then [] else [table[k]])
    ensures Resolutions(table[..k + 1], response, dataURL)
         == Resolutions(table[..k], response, dataURL)
            + (if table[k].contents == response then [Settlement(table[k].promise, dataURL)] else [])
  {
    assert table[..k + 1][..k] == table[..k];
  }

  /**
   * While the listeners run, the live table is the survivors among those already run followed by
   * those still to run; running listener `k` removes it or keeps it.
   */
  lemma ListenerRuns(listeners: seq<Pending>, k: nat, live: seq<Pending>, response: Buffer)
    requires k < |listeners|
    requires live == Kept(listeners[..k], response) + listeners[k..]
    ensures var i := |Kept(listeners[..k], response)|;
      i < |live| && live[i] == listeners[k]
      && (listeners[k].contents == response ==>
            live[..i] + live[i + 1..] == Kept(listeners[..k + 1], response) + listeners[k + 1..]
            && |Kept(listeners[..k + 1], response)| == i)
      && (listeners[k].contents != response ==>
            live == Kept(listeners[..k + 1], response) + listeners[k + 1..]
            && |Kept(listeners[..k + 1], response)| == i + 1)
  {
    var done := Kept(listeners[..k], response);
    DeliveryStep(listeners, k, response, "");
    assert listeners[k..] == [listeners[k]] + listeners[k + 1..];
    assert live[..|done|] == done && live[|done| + 1..] == listeners[k + 1..];
  }

  /** A delivery moves promises from the table to the settlements: none is lost or duplicated. */
  lemma {:induction false} DeliveryPartitions(table: seq<Pending>, response: Buffer, dataURL: string, id: PromiseId)
    ensures PendingCount(Kept(table, response), id) + SettledCount(Resolutions(table, response, dataURL), id)
         == PendingCount(table, id)
    decreases |table|
  {
    if table != [] {
      var n := |table| - 1;
      var init, last := table[..n], table[n];
      DeliveryPartitions(init, response, dataURL, id);
      DeliveryStep(table, n, response, dataURL);
      assert table[..n + 1] == table;
      if last.contents == response {
        var res := Resolutions(init, response, dataURL);
        assert Kept(init, response) + [] == Kept(init, response);
        assert (res + [Settlement(last.promise, dataURL)])[..|res|] == res;
      } else {
        assert Resolutions(init, response, dataURL) + [] == Resolutions(init, response, dataURL);
        PendingCountSnoc(Kept(init, response), last, id);
      }
    }
  }

  /** A delivery no listener matches changes nothing. */
  lemma {:induction false} UnmatchedResponseDropped(table: seq<Pending>, response: Buffer, dataURL: string)
    requires forall p :: p in table ==> p.contents != response
    ensures Kept(table, response) == table
    ensures Resolutions(table, response, dataURL) == []
    decreases |table|
  {
    if table != [] {
      var init := table[..|table| - 1];
      assert table == init + [table[|table| - 1]];
      UnmatchedResponseDropped(init, response, dataURL);
    }
  }

  /**
   * Once the listeners for a buffer have been settled and removed, a later delivery for that buffer
   * settles nothing and leaves the table as it is: each promise settles at most once.
   */
  lemma SecondDeliverySettlesNothing(table: seq<Pending>, response: Buffer, dataURL: string, laterURL: string)
    ensures Kept(Kept(table, response), response) == Kept(table, response)
    ensures Resolutions(Kept(table, response), response, laterURL) == []
  {
    forall p | p in Kept(table, response) ensures p.contents != response {
      KeptMember(table, response, p);
    }
    UnmatchedResponseDropped(Kept(table, response), response, laterURL);
  }

  /** The listener registered for a request is settled by the response that echoes its buffer. */
  lemma OwnResponseSettles(table: seq<Pending>, promise: PromiseId, contents: Buffer, dataURL: string)
    ensures Settlement(promise, dataURL) in Resolutions(table + [Pending(promise, contents)], contents, dataURL)
    ensures Pending(promise, contents) !in Kept(table + [Pending(promise, contents)], contents)
  {
    var t := table + [Pending(promise, contents)];
    assert Pending(promise, contents) in t;
    ResolutionMember(t, contents, dataURL, Settlement(promise, dataURL));
    KeptMember(t, contents, Pending(promise, contents));
  }

  /** Two listeners waiting for bit-identical buffers are both settled by the first response for that buffer. */
  lemma IdenticalBuffersSettleTogether(table: seq<Pending>, p: PromiseId, q: PromiseId, contents: Buffer, dataURL: string)
    ensures var t := table + [Pending(p, contents), Pending(q, contents)];
      Settlement(p, dataURL) in Resolutions(t, contents, dataURL) && Settlement(q, dataURL) in Resolutions(t, contents, dataURL)
  {
    var t := table + [Pending(p, contents), Pending(q, contents)];
    assert Pending(p, contents) in t && Pending(q, contents) in t;
    ResolutionMember(t, contents, dataURL, Settlement(p, dataURL));
    ResolutionMember(t, contents, dataURL, Settlement(q, dataURL));
  }

  /** Of two waiting listeners with different buffers, the response for the first settles the first only. */
  lemma DeliveryToFirstOfTwo(a: Pending, b: Pending, dataURL: string)
    requires a.contents != b.contents
    ensures Kept([a, b], a.contents) == [b]
    ensures Resolutions([a, b], a.contents, dataURL) == [Settlement(a.promise, dataURL)]
  {
    assert [a, b][..1] == [a];
    assert [a][..0] == [];
  }

  /** Two waiting listeners with the same buffer are both settled, in order, by one response. */
  lemma DeliveryToIdenticalPair(a: Pending, b: Pending, dataURL: string)
    requires a.contents == b.contents
    ensures Kept([a, b], a.contents) == []
    ensures Resolutions([a, b], a.contents, dataURL) == [Settlement(a.promise, dataURL), Settlement(b.promise, dataURL)]
  {
    assert [a, b][..1] == [a];
    assert [a][..0] == [];
  }

  /** Every promise appears at most once among the live listeners and the settlements together. */
  ghost predicate Unique(pending: seq<Pending>, settled: seq<Settlement>)
  {
    forall id :: PendingCount(pending, id) + SettledCount(settled, id) <= 1
  }

  /** Uniqueness means no promise is settled twice and no settled promise is still waiting. */
  lemma SettledAtMostOnce(pending: seq<Pending>, settled: seq<Settlement>)
    requires Unique(pending, settled)
    ensures forall j, k :: 0 <= j < k < |settled| ==> settled[j].promise != settled[k].promise
    ensures forall j, k :: 0 <= j < |pending| && 0 <= k < |settled| ==> pending[j].promise != settled[k].promise
  {
    forall j, k | 0 <= j < k < |settled|
      ensures settled[j].promise != settled[k].promise
    {
      var front, back := settled[..j + 1], settled[j + 1..];
      assert settled == front + back;
      SettledCountPresent(front, j);
      SettledCountPresent(back, k - j - 1);
      SettledCountAppend(front, back, settled[j].promise);
      assert front[j] == settled[j] && back[k - j - 1] == settled[k];
    }
    forall j, k | 0 <= j < |pending| && 0 <= k < |settled|
      ensures pending[j].promise != settled[k].promise
    {
      PendingCountPresent(pending, j);
      SettledCountPresent(settled, k);
    }
  }

  /** A delivery keeps every promise unique and below the next unused identity. */
  lemma DeliveryKeepsUnique(table: seq<Pending>, settled: seq<Settlement>, response: Buffer, dataURL: string, bound: nat)
    requires Unique(table, settled)
    requires forall k :: 0 <= k < |table| ==> table[k].promise < bound
    requires forall k :: 0 <= k < |settled| ==> settled[k].promise < bound
    ensures Unique(Kept(table, response), settled + Resolutions(table, response, dataURL))
    ensures forall k :: 0 <= k < |Kept(table, response)| ==> Kept(table, response)[k].promise < bound
    ensures forall k :: 0 <= k < |settled + Resolutions(table, response, dataURL)| ==>
      (settled + Resolutions(table, response, dataURL))[k].promise < bound
  {
    var kept, res := Kept(table, response), Resolutions(table, response, dataURL);
    forall id ensures PendingCount(kept, id) + SettledCount(settled + res, id) <= 1 {
      DeliveryPartitions(table, response, dataURL, id);
      SettledCountAppend(settled, res, id);
    }
    forall k | 0 <= k < |kept| ensures kept[k].promise < bound {
      KeptMember(table, response, kept[k]);
    }
    forall k | 0 <= k < |settled + res| ensures (settled + res)[k].promise < bound {
      if k >= |settled| {
        var s := res[k - |settled|];
        assert s in res;
        ResolutionMember(table, response, dataURL, s);
      }
    }
  }

  /**
   * Emitting 'gpu-dataURL' with `(response, dataURL)`: every listener registered when the message
   * arrived runs, in registration order. A listener whose buffer equals `response` settles its
   * promise and removes itself; the others return at once.
   */
  method RunListeners(listeners: seq<Pending>, response: Buffer, dataURL: string)
    returns (live: seq<Pending>, resolved: seq<Settlement>)
    ensures live == Kept(listeners, response)
    ensures resolved == Resolutions(listeners, response, dataURL)
  {
    live, resolved := listeners, [];
    var i := 0;
    for k := 0 to |listeners|
      invariant i == |Kept(listeners[..k], response)|
      invariant live == Kept(listeners[..k], response) + listeners[k..]
      invariant resolved == Resolutions(listeners[..k], response, dataURL)
    {
      var p := listeners[k];
      DeliveryStep(listeners, k, response, dataURL);
      ListenerRuns(listeners, k, live, response);
      var equal;
      ghost var compared;
      equal, compared := AreBuffersEqual(p.contents, response);
      if equal {
        resolved := resolved + [Settlement(p.promise, dataURL)];
        live := live[..i] + live[i + 1..];
      } else {
        assert resolved + [] == resolved;
        i := i + 1;
      }
    }
    assert listeners[..|listeners|] == listeners;
    assert Kept(listeners, response) + [] == Kept(listeners, response);
  }

  /**
   * The renderer's listener registry for 'gpu-dataURL' together with the messages it sent and the
   * promises its listeners settled.
   */
  class Renderer {
    var pending: seq<Pending>       // live listeners, in registration order
    var outbox: seq<Buffer>         // 'convertDDSImage' messages sent, in order
    var settled: seq<Settlement>    // settlements, in order
    var nextPromise: PromiseId

    ghost predicate Valid()
      reads this
    {
      Unique(pending, settled)
      && (forall k :: 0 <= k < |pending| ==> pending[k].promise < nextPromise)
      && (forall k :: 0 <= k < |settled| ==> settled[k].promise < nextPromise)
    }

    constructor ()
      ensures Valid()
      ensures pending == [] && outbox == [] && settled == [] && nextPromise == 0
    {
      pending, outbox, settled, nextPromise := [], [], [], 0;
    }

    /** `convertDDSImage`: registers the listener, and only then sends the request. */
    method ConvertDDSImage(contents: Buffer) returns (promise: PromiseId)
      requires Valid()
      modifies this
      ensures Valid()
      ensures promise == old(nextPromise) && nextPromise == promise + 1
      ensures pending == old(pending) + [Pending(promise, contents)]
      ensures outbox == old(outbox) + [contents]
      ensures settled == old(settled)
    {
      promise := nextPromise;
      nextPromise := nextPromise + 1;
      PendingCountAbsent(pending, promise);
      SettledCountAbsent(settled, promise);
      forall id ensures PendingCount(pending + [Pending(promise, contents)], id) + SettledCount(settled, id) <= 1 {
        PendingCountSnoc(pending, Pending(promise, contents), id);
      }
      pending := pending + [Pending(promise, contents)];
      outbox := outbox + [contents];
    }

    /** A 'gpu-dataURL' message reaches the renderer: its listeners run and the table and settlements are updated. */
    method Deliver(response: Buffer, dataURL: string)
      requires Valid()
      modifies this
      ensures Valid()
      ensures pending == Kept(old(pending), response)
      ensures settled == old(settled) + Resolutions(old(pending), response, dataURL)
      ensures outbox == old(outbox) && nextPromise == old(nextPromise)
    {
      DeliveryKeepsUnique(pending, settled, response, dataURL, nextPromise);
      var live, resolved := RunListeners(pending, response, dataURL);
      pending, settled := live, settled + resolved;
    }
  }

  // ---------------------------------------------------------------------------------------------
  // The image component

  /** The image being shown: its media type, its base64 text and its raw bytes. */
  datatype Image = Image(mediaType: string, contents: string, rawContents: Buffer)

  const DdsMediaType: string := "image/vnd-ms.dds"

  /** How the awaited conversion ended. */
  datatype Outcome = Fulfilled(dataURL: string) | Rejected

  /** The element `render` produces: an `<img>` with this source. */
  datatype Img = Img(src: string)

  /** The inline source of an image that needs no conversion: `data:<mediaType>;base64,<contents>`. */
  function DataUri(mediaType: string, contents: string): (r: string)
    ensures |r| == 5 + |mediaType| + 8 + |contents|
    ensures r[..5] == "data:" && r[5..5 + |mediaType|] == mediaType
    ensures r[5 + |mediaType|..13 + |mediaType|] == ";base64," && r[13 + |mediaType|..] == contents
  {
    "data:" + mediaType + ";base64," + contents
  }

  /** The first index of `c` in `s`, if any. */
  function IndexOf(s: string, c: char): (r: Option<nat>)
    ensures r.None? ==> c !in s
    ensures r.Some? ==> r.value < |s| && s[r.value] == c && c !in s[..r.value]
  {
    if s == [] then None
    else if s[0] == c then Some(0)
    else match IndexOf(s[1..], c)
      case None => None
      case Some(k) => assert s[..k + 1] == [s[0]] + s[1..][..k]; Some(k + 1)
  }

  /** Splits a `data:<mediaType>;base64,<contents>` string back into its media type and contents. */
  function ParseDataUri(u: string): Option<(string, string)>
  {
    if |u| < 5 || u[..5] != "data:" then None
    else
      var rest := u[5..];
      match IndexOf(rest, ';')
      case None => None
      case Some(k) =>
        if rest[k..] [..Min(8, |rest| - k)] == ";base64," then Some((rest[..k], rest[k + 8..])) else None
  }

  function Min(a: int, b: int): int { if a < b then a else b }

  /** For a media type without ';' the data URI determines the media type and contents it was built from. */
  lemma DataUriRoundTrip(mediaType: string, contents: string)
    requires ';' !in mediaType
    ensures ParseDataUri(DataUri(mediaType, contents)) == Some((mediaType, contents))
  {
    var u := DataUri(mediaType, contents);
    var rest := u[5..];
    assert rest == mediaType + ";base64," + contents;
    assert rest[|mediaType|] == ';';
    var r := IndexOf(rest, ';');
    assert r.Some?;
    var k := r.value;
    assert k == |mediaType|;
    assert rest[k..][..8] == ";base64,";
    assert rest[..k] == mediaType;
    assert rest[k + 8..] == contents;
  }

  /** The `ImageContainer` component: its `imageSource` state and the conversions it is waiting for. */
  class ImageContainer {
    const ipc: Renderer
    var imageSource: Option<string>
    var awaiting: set<PromiseId>

    constructor (ipc: Renderer)
      ensures this.ipc == ipc && imageSource == None && awaiting == {}
      ensures Render() == None
    {
      this.ipc := ipc;
      imageSource := None;
      awaiting := {};
    }

    /**
     * `loadImage` up to its `await`: a DDS image becomes a conversion request, anything else
     * becomes an inline data URI at once, with no request.
     */
    method LoadImage(image: Image) returns (promise: Option<PromiseId>)
      requires ipc.Valid()
      modifies this, ipc
      ensures ipc.Valid()
      ensures image.mediaType == DdsMediaType ==>
        promise == Some(old(ipc.nextPromise)) && awaiting == old(awaiting) + {old(ipc.nextPromise)}
        && imageSource == old(imageSource)
        && ipc.pending == old(ipc.pending) + [Pending(old(ipc.nextPromise), image.rawContents)]
        && ipc.outbox == old(ipc.outbox) + [image.rawContents]
        && ipc.settled == old(ipc.settled) && ipc.nextPromise == old(ipc.nextPromise) + 1
      ensures image.mediaType != DdsMediaType ==>
        promise == None && awaiting == old(awaiting)
        && imageSource == Some(DataUri(image.mediaType, image.contents))
        && unchanged(ipc)
    {
      if image.mediaType == DdsMediaType {
        var p := ipc.ConvertDDSImage(image.rawContents);
        awaiting := awaiting + {p};
        promise := Some(p);
      } else {
        imageSource := Some(DataUri(image.mediaType, image.contents));
        promise := None;
      }
    }

    /**
     * `loadImage` after its `await`: the data URL on success, `null` when the conversion failed.
     * The await ends with a fulfilment only once a listener has settled the promise with that data
     * URL, and with a rejection only for a promise no listener settled.
     */
    method Resume(promise: PromiseId, outcome: Outcome)
      requires promise in awaiting
      requires outcome.Fulfilled? ==> Settlement(promise, outcome.dataURL) in ipc.settled
      requires outcome.Rejected? ==> forall s :: s in ipc.settled ==> s.promise != promise
      modifies this
      ensures awaiting == old(awaiting) - {promise}
      ensures outcome.Fulfilled? ==> imageSource == Some(outcome.dataURL)
      ensures outcome.Rejected? ==> imageSource == None
      ensures imageSource.Some? ==> Settlement(promise, imageSource.value) in ipc.settled
    {
      awaiting := awaiting - {promise};
      match outcome
      case Fulfilled(url) => imageSource := Some(url);
      case Rejected => imageSource := None;
    }

    /** `render`: nothing while the source is `null` or empty, otherwise an `<img>` showing it. */
    function Render(): (r: Option<Img>)
      reads this
      ensures r.None? <==> imageSource.None? || imageSource.value == ""
      ensures r.Some? ==> r.value.src == imageSource.value
    {
      match imageSource
      case None => None
      case Some(src) => if src == "" then None else Some(Img(src))
    }
  }
}
