/**
 * One conversion end to end: an image component asks, the renderer's listener table waits,
 * the supervisor forwards, and the GPU process answers.
 *
 * The GPU process's handler answers a request `contents` with `(contents, decode(contents))`;
 * the decoder is not part of this model and enters as the function `decode`. How the answer
 * comes back to the renderer is not part of the supervisor: `Renderer.Deliver` stands for it.
 */
module Pipeline {
  import opened Ipc
  import GpuWindow
  import opened ImageContainer

  /** The GPU process's reply to a 'convertDDSImage' message: the payload echoed with its decoding. */
  function WorkerReply(contents: Buffer, decode: Buffer -> string): (reply: (Buffer, string))
    ensures reply.0 == contents
  {
    (contents, decode(contents))
  }

  /** The data URL settling promise `promise`, if it has been settled. */
  function SettlementFor(settled: seq<Settlement>, promise: PromiseId): (r: Option<string>)
    ensures r.Some? ==> Settlement(promise, r.value) in settled
    ensures r.None? ==> forall s :: s in settled ==> s.promise != promise
  {
    if settled == [] then None
    else if settled[0].promise == promise then Some(settled[0].dataURL)
    else SettlementFor(settled[1..], promise)
  }

  /**
   * A component converts a DDS image while another request, for different bytes, is in flight;
   * the GPU process answers the component's request first. The component shows the decoding of
   * its own bytes and the other request is still waiting.
   */
  method ConcurrentConversions(isDev: bool, raw: Buffer, other: Buffer, decode: Buffer -> string)
    returns (shown: Option<string>, stillWaiting: seq<Pending>)
    requires raw != other
    ensures shown == Some(decode(raw))
    ensures stillWaiting == [Pending(1, other)]
  {
    var gpu := new GpuWindow.GPUWindow(isDev);
    gpu.Load();
    var ipc := new Renderer();
    var component := new ImageContainer(ipc);

    var p := component.LoadImage(Image(DdsMediaType, "", raw));
    assert 0 in component.awaiting && ipc.pending == [Pending(0, raw)] && ipc.nextPromise == 1;
    var q := ipc.ConvertDDSImage(other);
    assert ipc.pending == [Pending(0, raw), Pending(1, other)];

    gpu.ConvertDDSImage(ipc.outbox[0]);
    assert gpu.forwarded == [raw] by {
      GpuWindow.ConvertForwardedVerbatim(GpuWindow.Step(GpuWindow.Initial(isDev), GpuWindow.CallLoad), raw);
    }

    var reply := WorkerReply(gpu.forwarded[0], decode);
    ipc.Deliver(reply.0, reply.1);
    DeliveryToFirstOfTwo(Pending(0, raw), Pending(1, other), decode(raw));

    var url := SettlementFor(ipc.settled, 0);
    assert url == Some(decode(raw));
    component.Resume(0, Fulfilled(url.value));
    shown, stillWaiting := component.imageSource, ipc.pending;
  }

  /**
   * Two components convert bit-identical buffers: the first answer settles both of them with the
   * same data URL and leaves nothing waiting.
   */
  method IdenticalConversions(raw: Buffer, decode: Buffer -> string)
    returns (first: Option<string>, second: Option<string>, stillWaiting: seq<Pending>)
    ensures first == Some(decode(raw)) && second == Some(decode(raw))
    ensures stillWaiting == []
  {
    var ipc := new Renderer();
    var p := ipc.ConvertDDSImage(raw);
    var q := ipc.ConvertDDSImage(raw);
    var reply := WorkerReply(ipc.outbox[0], decode);
    ipc.Deliver(reply.0, reply.1);
    DeliveryToIdenticalPair(Pending(0, raw), Pending(1, raw), decode(raw));
    first, second, stillWaiting := SettlementFor(ipc.settled, 0), SettlementFor(ipc.settled, 1), ipc.pending;
  }

  /** An image that is not DDS gets its inline data URI and sends nothing. */
  method InlineImage(mediaType: string, contents: string, raw: Buffer)
    returns (shown: Option<Img>, sent: seq<Buffer>)
    requires mediaType != DdsMediaType && ';' !in mediaType
    ensures shown.Some? && ParseDataUri(shown.value.src) == Some((mediaType, contents))
    ensures sent == []
  {
    var ipc := new Renderer();
    var c := new ImageContainer(ipc);
    var _ := c.LoadImage(Image(mediaType, contents, raw));
    DataUriRoundTrip(mediaType, contents);
    assert DataUri(mediaType, contents) != "";
    shown, sent := c.Render(), ipc.outbox;
  }
}
