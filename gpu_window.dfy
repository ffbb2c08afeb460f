/**
 * The host-side supervisor of the GPU process window (`GPUWindow`).
 *
 * `State` and `Step` give the meaning of every event the window reacts to; the class `GPUWindow`
 * keeps the same data in mutable fields and each of its methods is proved to perform `Step`.
 *
 * `load()` registers one copy of every handler each time it runs, so the model counts the runs
 * (`loads`) and, for the `once` handler of `did-finish-load`, how many copies are still armed
 * (`finishOnce`). In the usual lifecycle `load()` runs once.
 */
module GpuWindow {
  import opened Ipc

  /** Identity of a function registered by the window's owner. */
  type ListenerId = nat

  /** One notification of the owner's listeners, with the listeners registered at that moment. */
  datatype Emission =
    | DidLoad(listeners: seq<ListenerId>)
    | DidFailLoad(listeners: seq<ListenerId>)
    | Closed(listeners: seq<ListenerId>)

  /** The calls and events the window reacts to. */
  datatype Input =
    | CallLoad                                  // load()
    | WebDidStartLoading                        // webContents 'did-start-loading'
    | WebDidFinishLoad                          // webContents 'did-finish-load'
    | WebDidFailLoad                            // webContents 'did-fail-load'
    | IpcGpuReady                               // ipcMain 'gpu-ready'
    | IpcGpuQuit                                // ipcMain 'gpu-quit'
    | IpcConvertDDSImage(contents: Buffer)      // ipcMain 'convertDDSImage'
    | CallOnDidLoad(listener: ListenerId)       // onDidLoad(fn)
    | CallOnFailedToLoad(listener: ListenerId)  // onFailedToLoad(fn)
    | CallOnClose(listener: ListenerId)         // onClose(fn)

  datatype State = State(
    isDev: bool,                       // __DEV__
    loads: nat,                        // how many times load() registered its handlers
    finishOnce: nat,                   // 'did-finish-load' once-handlers not yet fired
    hasFinishedLoading: bool,
    hasSentReadyEvent: bool,
    closed: bool,
    didLoadListeners: seq<ListenerId>,
    failListeners: seq<ListenerId>,
    closeListeners: seq<ListenerId>,
    emitted: seq<Emission>,            // every notification of the owner's listeners, in order
    forwarded: seq<Buffer>)            // every 'convertDDSImage' sent to the GPU webContents, in order

  /** A freshly constructed window: no handler registered, both readiness flags false. */
  function Initial(isDev: bool): State
  {
    State(isDev, 0, 0, false, false, false, [], [], [], [], [])
  }

  /** Emissions appended to the log between `s` and `t`. */
  function NewEmissions(s: State, t: State): seq<Emission>
    requires |s.emitted| <= |t.emitted|
  {
    t.emitted[|s.emitted|..]
  }

  /** Does the log contain a `did-load` notification? */
  predicate HasDidLoad(log: seq<Emission>)
  {
    exists k :: 0 <= k < |log| && log[k].DidLoad?
  }

  /** What no step undoes: the logs only grow, and the flags and `closed` are never reset. */
  predicate Grows(s: State, t: State)
  {
    t.isDev == s.isDev
    && (s.hasFinishedLoading ==> t.hasFinishedLoading)
    && (s.hasSentReadyEvent ==> t.hasSentReadyEvent)
    && (s.closed ==> t.closed)
    && |s.emitted| <= |t.emitted| && t.emitted[..|s.emitted|] == s.emitted
    && |s.forwarded| <= |t.forwarded| && t.forwarded[..|s.forwarded|] == s.forwarded
  }

  /** The readiness gate: 'did-load' is emitted between `s` and `t` only if both flags hold in `t`. */
  predicate Gated(s: State, t: State)
    requires |s.emitted| <= |t.emitted|
  {
    HasDidLoad(NewEmissions(s, t)) ==> t.hasFinishedLoading && t.hasSentReadyEvent
  }

  /** The 'did-finish-load' handlers: each armed copy sets the flag and emits 'did-load' if ready. */
  function OnDidFinishLoad(s: State): (t: State)
    ensures Grows(s, t) && Gated(s, t)
    ensures t.hasSentReadyEvent == s.hasSentReadyEvent && t.forwarded == s.forwarded
    ensures t.finishOnce == 0
    ensures s.finishOnce > 0 ==> t.hasFinishedLoading
    ensures s.finishOnce > 0 && s.hasSentReadyEvent ==> HasDidLoad(NewEmissions(s, t))
  {
    var added := Repeat(DidLoad(s.didLoadListeners), if s.hasSentReadyEvent then s.finishOnce else 0);
    var t := s.(finishOnce := 0,
                hasFinishedLoading := s.hasFinishedLoading || s.finishOnce > 0,
                emitted := s.emitted + added);
    assert NewEmissions(s, t) == added;
    assert |added| > 0 ==> added[0].DidLoad?;
    t
  }

  /** The 'gpu-ready' handlers: each copy sets the flag and emits 'did-load' if the page has loaded. */
  function OnGpuReady(s: State): (t: State)
    ensures Grows(s, t) && Gated(s, t)
    ensures t.hasFinishedLoading == s.hasFinishedLoading && t.forwarded == s.forwarded
    ensures s.loads > 0 ==> t.hasSentReadyEvent
    ensures s.loads > 0 && s.hasFinishedLoading ==> HasDidLoad(NewEmissions(s, t))
  {
    var added := Repeat(DidLoad(s.didLoadListeners), if s.hasFinishedLoading then s.loads else 0);
    var t := s.(hasSentReadyEvent := s.hasSentReadyEvent || s.loads > 0, emitted := s.emitted + added);
    assert NewEmissions(s, t) == added;
    assert |added| > 0 ==> added[0].DidLoad?;
    t
  }

  /** The 'did-fail-load' handlers: in production each copy notifies the failure listeners. */
  function OnDidFailLoad(s: State): (t: State)
    ensures Grows(s, t) && !HasDidLoad(NewEmissions(s, t))
    ensures t.hasFinishedLoading == s.hasFinishedLoading && t.hasSentReadyEvent == s.hasSentReadyEvent
    ensures t.forwarded == s.forwarded
  {
    var t := s.(emitted := s.emitted + Repeat(DidFailLoad(s.failListeners), if s.isDev then 0 else s.loads));
    assert forall k :: 0 <= k < |NewEmissions(s, t)| ==> NewEmissions(s, t)[k].DidFailLoad?;
    t
  }

  /** The 'gpu-quit' handlers: the first copy closes the window and the close listeners run once. */
  function OnGpuQuit(s: State): (t: State)
    ensures Grows(s, t) && Gated(s, t)
    ensures t.hasFinishedLoading == s.hasFinishedLoading && t.hasSentReadyEvent == s.hasSentReadyEvent
    ensures t.forwarded == s.forwarded
    ensures s.loads > 0 ==> t.closed
  {
    if s.loads > 0 && !s.closed then
      var t := s.(closed := true, emitted := s.emitted + [Closed(s.closeListeners)]);
      assert NewEmissions(s, t) == [Closed(s.closeListeners)];
      t
    else
      s
  }

  /**
   * The 'convertDDSImage' handlers: each copy sends the payload, as received, to the GPU webContents.
   * Once the window has closed its webContents is destroyed and no send reaches the GPU page.
   */
  function OnConvertDDSImage(s: State, contents: Buffer): (t: State)
    ensures Grows(s, t) && t.emitted == s.emitted
    ensures s.closed ==> t.forwarded == s.forwarded
    ensures !s.closed ==> |t.forwarded| == |s.forwarded| + s.loads
    ensures forall k :: |s.forwarded| <= k < |t.forwarded| ==> t.forwarded[k] == contents
  {
    if s.closed then s else s.(forwarded := s.forwarded + Repeat(contents, s.loads))
  }

  /** The effect of one call or event. */
  function Step(s: State, i: Input): (t: State)
    ensures Grows(s, t) && Gated(s, t)
    ensures t.hasFinishedLoading != s.hasFinishedLoading ==> i == WebDidFinishLoad
    ensures t.hasSentReadyEvent != s.hasSentReadyEvent ==> i == IpcGpuReady
    ensures !i.IpcConvertDDSImage? ==> t.forwarded == s.forwarded
  {
    match i
    case CallLoad => s.(loads := s.loads + 1, finishOnce := s.finishOnce + 1)
    case WebDidStartLoading => s
    case WebDidFinishLoad => OnDidFinishLoad(s)
    case WebDidFailLoad => OnDidFailLoad(s)
    case IpcGpuReady => OnGpuReady(s)
    case IpcGpuQuit => OnGpuQuit(s)
    case IpcConvertDDSImage(contents) => OnConvertDDSImage(s, contents)
    case CallOnDidLoad(l) => s.(didLoadListeners := s.didLoadListeners + [l])
    case CallOnFailedToLoad(l) => s.(failListeners := s.failListeners + [l])
    case CallOnClose(l) => s.(closeListeners := s.closeListeners + [l])
  }

  /** The effect of a sequence of calls and events, first to last. */
  function Run(s: State, inputs: seq<Input>): State
    decreases |inputs|
  {
    if inputs == [] then s else Run(Step(s, inputs[0]), inputs[1..])
  }

  /** Over any run the flags only rise, and each is true at the end only if it was true at the start or its event occurred. */
  lemma {:induction false} FlagsOnlyRise(s: State, inputs: seq<Input>)
    ensures s.hasFinishedLoading ==> Run(s, inputs).hasFinishedLoading
    ensures s.hasSentReadyEvent ==> Run(s, inputs).hasSentReadyEvent
    ensures Run(s, inputs).hasFinishedLoading ==> s.hasFinishedLoading || WebDidFinishLoad in inputs
    ensures Run(s, inputs).hasSentReadyEvent ==> s.hasSentReadyEvent || IpcGpuReady in inputs
    decreases |inputs|
  {
    if inputs != [] {
      FlagsOnlyRise(Step(s, inputs[0]), inputs[1..]);
      assert inputs == [inputs[0]] + inputs[1..];
    }
  }

  /** From the initial window, a flag is set only by a run that contains its event. */
  lemma FlagsStartFalse(isDev: bool, inputs: seq<Input>)
    ensures !Initial(isDev).hasFinishedLoading && !Initial(isDev).hasSentReadyEvent
    ensures Run(Initial(isDev), inputs).hasFinishedLoading ==> WebDidFinishLoad in inputs
    ensures Run(Initial(isDev), inputs).hasSentReadyEvent ==> IpcGpuReady in inputs
  {
    FlagsOnlyRise(Initial(isDev), inputs);
  }

  /**
   * The two readiness signals commute after one load(): whichever comes first emits nothing,
   * the second emits exactly one 'did-load', and both orders end in the same state.
   */
  lemma ReadinessOrderIndependent(s: State)
    requires s.loads == 1 && s.finishOnce == 1
    requires !s.hasFinishedLoading && !s.hasSentReadyEvent
    ensures Step(s, WebDidFinishLoad).emitted == s.emitted
    ensures Step(s, IpcGpuReady).emitted == s.emitted
    ensures Step(Step(s, WebDidFinishLoad), IpcGpuReady).emitted == s.emitted + [DidLoad(s.didLoadListeners)]
    ensures Step(Step(s, IpcGpuReady), WebDidFinishLoad).emitted == s.emitted + [DidLoad(s.didLoadListeners)]
    ensures Step(Step(s, WebDidFinishLoad), IpcGpuReady) == Step(Step(s, IpcGpuReady), WebDidFinishLoad)
  {
  }

  /** 'did-finish-load' is handled once: a second occurrence changes nothing. 'did-start-loading' never changes anything. */
  lemma FinishLoadHandledOnce(s: State)
    ensures Step(Step(s, WebDidFinishLoad), WebDidFinishLoad) == Step(s, WebDidFinishLoad)
    ensures Step(s, WebDidStartLoading) == s
  {
  }

  /** 'gpu-ready' is registered with `on`: once both flags hold, every further 'gpu-ready' emits 'did-load' again. */
  lemma RepeatedReadyEmitsAgain(s: State)
    requires s.loads == 1 && s.hasFinishedLoading && s.hasSentReadyEvent
    ensures Step(s, IpcGpuReady) == s.(emitted := s.emitted + [DidLoad(s.didLoadListeners)])
  {
  }

  /**
   * 'did-fail-load' leaves the flags alone and never emits 'did-load'; in production it notifies
   * the failure listeners once per registered handler, in development mode it notifies nobody.
   */
  lemma FailLoadNotifies(s: State)
    ensures Step(s, WebDidFailLoad).hasFinishedLoading == s.hasFinishedLoading
    ensures Step(s, WebDidFailLoad).hasSentReadyEvent == s.hasSentReadyEvent
    ensures !HasDidLoad(NewEmissions(s, Step(s, WebDidFailLoad)))
    ensures s.isDev ==> Step(s, WebDidFailLoad) == s
    ensures !s.isDev && s.loads == 1 ==>
      Step(s, WebDidFailLoad) == s.(emitted := s.emitted + [DidFailLoad(s.failListeners)])
  {
    var t := Step(s, WebDidFailLoad);
    assert forall k :: 0 <= k < |NewEmissions(s, t)| ==> NewEmissions(s, t)[k].DidFailLoad?;
  }

  /** A production window that fails to load notifies its failure listeners and never emits 'did-load'. */
  lemma ProductionLoadFailure(l: ListenerId)
    ensures Run(Initial(false), [CallOnFailedToLoad(l), CallLoad, WebDidFailLoad]).emitted == [DidFailLoad([l])]
  {
    var s1 := Step(Initial(false), CallOnFailedToLoad(l));
    var s2 := Step(s1, CallLoad);
    var s3 := Step(s2, WebDidFailLoad);
    assert s2.loads == 1 && s2.failListeners == [l] && s2.emitted == [];
    assert Repeat(DidFailLoad([l]), 1) == [DidFailLoad([l])];
    assert s3.emitted == [DidFailLoad([l])];
    var inputs := [CallOnFailedToLoad(l), CallLoad, WebDidFailLoad];
    assert Run(s3, []) == s3;
    assert Run(s2, inputs[2..]) == s3 by { assert inputs[2..][1..] == []; }
    assert Run(s1, inputs[1..]) == s3 by { assert inputs[1..][1..] == inputs[2..]; }
  }

  /** An open window forwards a conversion request with the payload received and nothing else changes; a closed one forwards nothing. */
  lemma ConvertForwardedVerbatim(s: State, contents: Buffer)
    requires s.loads == 1
    ensures Step(s, IpcConvertDDSImage(contents)) == if s.closed then s else s.(forwarded := s.forwarded + [contents])
  {
  }

  /**
   * 'gpu-quit' closes a loaded window: the first one notifies the close listeners registered at that
   * moment, and nothing else changes; a further 'gpu-quit' changes nothing.
   */
  lemma QuitCloses(s: State)
    requires s.loads > 0
    ensures Step(s, IpcGpuQuit).closed
    ensures !s.closed ==> Step(s, IpcGpuQuit) == s.(closed := true, emitted := s.emitted + [Closed(s.closeListeners)])
    ensures s.closed ==> Step(s, IpcGpuQuit) == s
    ensures Step(Step(s, IpcGpuQuit), IpcGpuQuit) == Step(s, IpcGpuQuit)
  {
  }

  /**
   * The exact effect of 'did-finish-load' after one load(): the flag is raised and 'did-load' is
   * emitted once if 'gpu-ready' has already been seen, and not otherwise.
   */
  lemma FinishLoadEffect(s: State)
    requires s.finishOnce == 1
    ensures Step(s, WebDidFinishLoad) == s.(finishOnce := 0, hasFinishedLoading := true,
      emitted := s.emitted + (if s.hasSentReadyEvent then [DidLoad(s.didLoadListeners)] else []))
  {
  }

  /**
   * The exact effect of 'gpu-ready' after one load(): the flag is raised and 'did-load' is emitted
   * once if the page has already finished loading, and not otherwise.
   */
  lemma ReadyEffect(s: State)
    requires s.loads == 1
    ensures Step(s, IpcGpuReady) == s.(hasSentReadyEvent := true,
      emitted := s.emitted + (if s.hasFinishedLoading then [DidLoad(s.didLoadListeners)] else []))
  {
  }

  /** `GPUWindow` with its handler bookkeeping and the logs of what it emitted and forwarded. */
  class GPUWindow {
    const isDev: bool
    var loads: nat
    var finishOnce: nat
    var hasFinishedLoading: bool
    var hasSentReadyEvent: bool
    var closed: bool
    var didLoadListeners: seq<ListenerId>
    var failListeners: seq<ListenerId>
    var closeListeners: seq<ListenerId>
    var emitted: seq<Emission>
    var forwarded: seq<Buffer>

    function Snapshot(): State
      reads this
    {
      State(isDev, loads, finishOnce, hasFinishedLoading, hasSentReadyEvent, closed,
            didLoadListeners, failListeners, closeListeners, emitted, forwarded)
    }

    constructor (isDev: bool)
      ensures Snapshot() == Initial(isDev)
    {
      this.isDev := isDev;
      loads, finishOnce := 0, 0;
      hasFinishedLoading, hasSentReadyEvent, closed := false, false, false;
      didLoadListeners, failListeners, closeListeners := [], [], [];
      emitted, forwarded := [], [];
    }

    /** Registers one copy of each handler. */
    method Load()
      modifies this
      ensures Snapshot() == Step(old(Snapshot()), CallLoad)
    {
      loads := loads + 1;
      finishOnce := finishOnce + 1;
    }

    /** The 'did-start-loading' handler only writes a debug message, which is not modelled. */
    method DidStartLoading()
      ensures Snapshot() == Step(old(Snapshot()), WebDidStartLoading)
    {
    }

    /** Emits 'did-load' if the page has loaded and the renderer has said it is ready. */
    method MaybeEmitDidLoad()
      modifies this
      ensures Snapshot() == old(Snapshot()).(emitted :=
        if hasFinishedLoading && hasSentReadyEvent then old(emitted) + [DidLoad(didLoadListeners)] else old(emitted))
    {
      if hasFinishedLoading && hasSentReadyEvent {
        emitted := emitted + [DidLoad(didLoadListeners)];
      }
    }

    /** Every armed once-handler fires and is disarmed. */
    method DidFinishLoad()
      modifies this
      ensures Snapshot() == Step(old(Snapshot()), WebDidFinishLoad)
    {
      var armed := finishOnce;
      finishOnce := 0;
      var e := DidLoad(didLoadListeners);
      for k := 0 to armed
        invariant Snapshot() == old(Snapshot()).(finishOnce := 0,
          hasFinishedLoading := old(hasFinishedLoading) || k > 0,
          emitted := old(emitted) + Repeat(e, if hasSentReadyEvent then k else 0))
      {
        hasFinishedLoading := true;
        MaybeEmitDidLoad();
      }
    }

    /** Each registered handler either notifies the failure listeners or, in development, opens the dev tools. */
    method DidFailLoad()
      modifies this
      ensures Snapshot() == Step(old(Snapshot()), WebDidFailLoad)
    {
      var e := Emission.DidFailLoad(failListeners);
      for k := 0 to loads
        invariant Snapshot() == old(Snapshot()).(emitted := old(emitted) + Repeat(e, if isDev then 0 else k))
      {
        if !isDev {
          emitted := emitted + [e];
        }
      }
    }

    method GpuReady()
      modifies this
      ensures Snapshot() == Step(old(Snapshot()), IpcGpuReady)
    {
      var e := DidLoad(didLoadListeners);
      for k := 0 to loads
        invariant Snapshot() == old(Snapshot()).(
          hasSentReadyEvent := old(hasSentReadyEvent) || k > 0,
          emitted := old(emitted) + Repeat(e, if hasFinishedLoading then k else 0))
      {
        hasSentReadyEvent := true;
        MaybeEmitDidLoad();
      }
    }

    /**
     * The BrowserWindow's own `close()`, called by the 'gpu-quit' handler: an open window closes and
     * Electron notifies its 'closed' listeners, those registered through `onClose`, once.
     */
    method Close()
      modifies this
      ensures Snapshot() == if old(closed) then old(Snapshot())
                            else old(Snapshot()).(closed := true, emitted := old(emitted) + [Closed(closeListeners)])
    {
      if !closed {
        closed := true;
        emitted := emitted + [Closed(closeListeners)];
      }
    }

    method GpuQuit()
      modifies this
      ensures Snapshot() == Step(old(Snapshot()), IpcGpuQuit)
    {
      for k := 0 to loads
        invariant Snapshot() == if k == 0 || old(closed) then old(Snapshot())
                                else old(Snapshot()).(closed := true, emitted := old(emitted) + [Closed(closeListeners)])
      {
        Close();
      }
    }

    /** Forwards the payload, untouched, to the GPU webContents while the window is open. */
    method ConvertDDSImage(contents: Buffer)
      modifies this
      ensures Snapshot() == Step(old(Snapshot()), IpcConvertDDSImage(contents))
    {
      if closed {
        return;
      }
      for k := 0 to loads
        invariant Snapshot() == old(Snapshot()).(forwarded := old(forwarded) + Repeat(contents, k))
      {
        forwarded := forwarded + [contents];
      }
    }

    method OnDidLoad(l: ListenerId)
      modifies this
      ensures Snapshot() == Step(old(Snapshot()), CallOnDidLoad(l))
    {
      didLoadListeners := didLoadListeners + [l];
    }

    method OnFailedToLoad(l: ListenerId)
      modifies this
      ensures Snapshot() == Step(old(Snapshot()), CallOnFailedToLoad(l))
    {
      failListeners := failListeners + [l];
    }

    method OnClose(l: ListenerId)
      modifies this
      ensures Snapshot() == Step(old(Snapshot()), CallOnClose(l))
    {
      closeListeners := closeListeners + [l];
    }
  }
}
