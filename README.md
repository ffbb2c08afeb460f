# DDS image conversion handshake

A model of how the desktop client turns a DDS texture in a diff into an `<img>` source. Three parties take part:

- **The image component** (`ImageContainer`, in the renderer process). For a DDS image, `loadImage` asks for a conversion. For any other image it builds an inline `data:` URI.
- **The renderer's `gpu-dataURL` listeners** (`convertDDSImage`). Each request registers a listener before sending its buffer. On every `gpu-dataURL` message, every live listener compares the echoed buffer with its own buffer byte by byte (`areBuffersEqual`). A listener whose buffer matches resolves its promise with the data URL and removes itself.
- **The main-process supervisor of the hidden GPU window** (`GPUWindow`). It emits `did-load` once the page has finished loading and the GPU page has said `gpu-ready`. It reports load failures in production builds. It closes the window on `gpu-quit`. It forwards every `convertDDSImage` payload, unchanged, to the GPU window.

The GPU page answers each request `contents` with `(contents, decode(contents))`. The decoder enters the model as a function parameter `decode`.

Files:

- `ipc.dfy`: module `Ipc`. Bytes, buffers, `Option` and `Repeat`.
- `gpu_window.dfy`: module `GpuWindow`.
  - The supervisor's state `State` and the meaning of each event, `Step`, with lemmas about them.
  - The class `GPUWindow`, which keeps the same data in fields. Each method that handles an event or a registration is proved to perform `Step` for it. `MaybeEmitDidLoad` and `Close` are the helpers those methods call, and each carries its own exact effect instead.
- `image_container.dfy`: module `ImageContainer`.
  - `AreBuffersEqual`.
  - The listener table: `Kept` and `Resolutions`, with their lemmas and the method `RunListeners`.
  - The class `Renderer`, the listener registry with its outbox of sent requests.
  - The data-URI builder and a parser for it.
  - The class `ImageContainer`, the component's state.
- `pipeline.dfy`: module `Pipeline`. End-to-end scenarios that connect the three parties.

`load()` registers one more copy of each of its handlers every time it runs. The supervisor therefore counts:

- `loads`: the runs of `load()`;
- `finishOnce`: the `did-finish-load` once-handlers still armed.

An event runs all registered copies in order. The usual lifecycle, with one `load()`, is the case `loads == 1` in the lemmas.

Two in-flight requests with bit-identical buffers are both settled by the first `gpu-dataURL` message for that buffer, and both listeners are removed (see `IdenticalBuffersSettleTogether`, `DeliveryToIdenticalPair` and `Pipeline.IdenticalConversions`).

## Model

| member | source | states |
|---|---|---|
| GpuWindow.OnDidFinishLoad | app/src/main-process/gpu-window.ts:66-70 | The flags and logs only grow. `did-load` is emitted only if both flags hold afterwards. An armed handler raises `hasFinishedLoading`, and emits `did-load` when `hasSentReadyEvent` already holds. The ready flag and the forwarded log are untouched. No `did-finish-load` handler stays armed. |
| GpuWindow.OnGpuReady | app/src/main-process/gpu-window.ts:82-87 | The flags and logs only grow. `did-load` is emitted only if both flags hold afterwards. A registered handler raises `hasSentReadyEvent`, and emits `did-load` when `hasFinishedLoading` already holds. The loaded flag and the forwarded log are untouched. |
| GpuWindow.OnDidFailLoad | app/src/main-process/gpu-window.ts:72-80 | A load failure emits no `did-load`. It leaves both flags and the forwarded log unchanged. |
| GpuWindow.OnGpuQuit | app/src/main-process/gpu-window.ts:89-92 | `gpu-quit` on a loaded window leaves it closed. The flags and the forwarded log are untouched, and the readiness gate holds. |
| GpuWindow.OnConvertDDSImage | app/src/main-process/gpu-window.ts:94-96 | While the window is open, each registered handler appends exactly the received payload to the forwarded log. After close nothing is forwarded. The emitted log is unchanged. |
| GpuWindow.Step | app/src/main-process/gpu-window.ts:53-109 | No event resets a flag, reopens the window or rewrites a log. Every event respects the readiness gate. Only `did-finish-load` changes `hasFinishedLoading`. Only `gpu-ready` changes `hasSentReadyEvent`. Only a conversion request changes the forwarded log. |
| GpuWindow.FlagsOnlyRise | app/src/main-process/gpu-window.ts:66-87 | Over any run of events neither flag goes back to false. A flag that ends true was true at the start, or its own event was in the run. |
| GpuWindow.FlagsStartFalse | app/src/main-process/gpu-window.ts:20-21 | A new window has both flags false. From there, a flag is true only after a run containing its event. |
| GpuWindow.FinishLoadEffect | app/src/main-process/gpu-window.ts:66-70 | From any state with one armed once-handler, `did-finish-load` raises `hasFinishedLoading` and disarms the handler. It emits exactly one `did-load` if `hasSentReadyEvent` holds, and none otherwise. Nothing else changes. |
| GpuWindow.ReadyEffect | app/src/main-process/gpu-window.ts:82-87 | From any state after one `load()`, `gpu-ready` raises `hasSentReadyEvent`. It emits exactly one `did-load` if `hasFinishedLoading` holds, and none otherwise. Nothing else changes. |
| GpuWindow.ReadinessOrderIndependent | app/src/main-process/gpu-window.ts:66-109 | After one `load()`, whichever readiness signal comes first emits nothing. The second emits exactly one `did-load`. Both orders end in the same state. |
| GpuWindow.FinishLoadHandledOnce | app/src/main-process/gpu-window.ts:62-70 | A second `did-finish-load` changes nothing. `did-start-loading` changes nothing at all. |
| GpuWindow.RepeatedReadyEmitsAgain | app/src/main-process/gpu-window.ts:82-87 | Once both flags hold, another `gpu-ready` emits `did-load` again. Nothing else changes. |
| GpuWindow.FailLoadNotifies | app/src/main-process/gpu-window.ts:72-80 | A load failure leaves the flags alone and emits no `did-load`. In development mode it changes nothing. In production, after one `load()`, it appends exactly one `did-fail-load` notification of the registered failure listeners. |
| GpuWindow.ProductionLoadFailure | app/src/main-process/gpu-window.ts:72-117 | A production window whose owner registered a failure listener and which fails to load notifies that listener once. It emits nothing else. |
| GpuWindow.ConvertForwardedVerbatim | app/src/main-process/gpu-window.ts:94-96 | After one `load()`, a conversion request to an open window appends exactly its payload to the forwarded log. The rest of the state is unchanged. A closed window forwards nothing. |
| GpuWindow.QuitCloses | app/src/main-process/gpu-window.ts:89-113 | `gpu-quit` closes a loaded window. The first one appends exactly one `closed` notification of the listeners registered through `onClose`, and changes nothing else. On a closed window, and so for a second `gpu-quit`, it changes nothing. |
| GpuWindow.GPUWindow.constructor | app/src/main-process/gpu-window.ts:16-23 | A new window has both flags false, no handlers, no listeners and empty logs. |
| GpuWindow.GPUWindow.Load | app/src/main-process/gpu-window.ts:53-99 | Performs `Step` for `load()`: one more copy of every handler, one more armed `did-finish-load` once-handler. |
| GpuWindow.GPUWindow.DidStartLoading | app/src/main-process/gpu-window.ts:62-64 | Performs `Step` for `did-start-loading`: the state is unchanged. |
| GpuWindow.GPUWindow.MaybeEmitDidLoad | app/src/main-process/gpu-window.ts:105-109 | Appends one `did-load` to the emitted log exactly when both flags hold. Nothing else changes. |
| GpuWindow.GPUWindow.DidFinishLoad | app/src/main-process/gpu-window.ts:66-70 | Running every armed once-handler and disarming it performs `Step` for `did-finish-load`. |
| GpuWindow.GPUWindow.DidFailLoad | app/src/main-process/gpu-window.ts:72-80 | Running every registered failure handler performs `Step` for `did-fail-load`. |
| GpuWindow.GPUWindow.GpuReady | app/src/main-process/gpu-window.ts:82-87 | Running every registered `gpu-ready` handler performs `Step` for `gpu-ready`. |
| GpuWindow.GPUWindow.Close | app/src/main-process/gpu-window.ts:91-113 | The BrowserWindow's `close()`, called at line 91, with Electron's `closed` notification of the listeners registered at lines 111-113. Closing an open window marks it closed and notifies the `closed` listeners once. Closing a closed window does nothing. |
| GpuWindow.GPUWindow.GpuQuit | app/src/main-process/gpu-window.ts:89-92 | Running every registered `gpu-quit` handler performs `Step` for `gpu-quit`. |
| GpuWindow.GPUWindow.ConvertDDSImage | app/src/main-process/gpu-window.ts:94-96 | Running every registered forwarder on an open window, and none on a closed one, performs `Step` for a conversion request. |
| GpuWindow.GPUWindow.OnDidLoad | app/src/main-process/gpu-window.ts:123-125 | Performs `Step` for registering a `did-load` listener: it joins the end of the list. |
| GpuWindow.GPUWindow.OnFailedToLoad | app/src/main-process/gpu-window.ts:115-117 | Performs `Step` for registering a `did-fail-load` listener. |
| GpuWindow.GPUWindow.OnClose | app/src/main-process/gpu-window.ts:111-113 | Performs `Step` for registering a `closed` listener. |
| ImageContainer.BuffersEqualIsEquality | app/src/ui/diff/image-diffs/image-container.tsx:22-30 | Two buffers are equal by content exactly when they are the same byte sequence. Buffer equality is reflexive and symmetric. |
| ImageContainer.LengthMismatchIsUnequal | app/src/ui/diff/image-diffs/image-container.tsx:23 | Buffers of different lengths are unequal, empty against non-empty included. |
| ImageContainer.AreBuffersEqual | app/src/ui/diff/image-diffs/image-container.tsx:22-30 | Returns true exactly when the lengths agree and every byte agrees. On a length mismatch no byte is read. A true answer reads every byte. A false answer on equal lengths stops at the first differing byte, after an equal prefix. |
| ImageContainer.Kept | app/src/ui/diff/image-diffs/image-container.tsx:49-51 | A delivery never adds listeners: the survivors are at most the table. |
| ImageContainer.Resolutions | app/src/ui/diff/image-diffs/image-container.tsx:49-51 | Every listener either survives a delivery or settles: the two counts add up to the table's size. |
| ImageContainer.KeptMember | app/src/ui/diff/image-diffs/image-container.tsx:49-51 | A listener survives a delivery if and only if it was live and its buffer differs from the response. |
| ImageContainer.ResolutionMember | app/src/ui/diff/image-diffs/image-container.tsx:49-51 | A settlement is made if and only if a live listener for that promise has a buffer equal to the response. It carries the response's data URL. |
| ImageContainer.DeliveryPartitions | app/src/ui/diff/image-diffs/image-container.tsx:49-51 | For every promise, its entries among the survivors plus its settlements equal its entries before the delivery. |
| ImageContainer.UnmatchedResponseDropped | app/src/ui/diff/image-diffs/image-container.tsx:49 | A response that matches no listener leaves the table as it is and settles nothing. |
| ImageContainer.SecondDeliverySettlesNothing | app/src/ui/diff/image-diffs/image-container.tsx:50-51 | After a delivery for a buffer, a later delivery for the same buffer settles nothing and changes nothing. |
| ImageContainer.OwnResponseSettles | app/src/ui/diff/image-diffs/image-container.tsx:49-54 | A request's listener is settled by the response echoing its buffer, and removed. |
| ImageContainer.IdenticalBuffersSettleTogether | app/src/ui/diff/image-diffs/image-container.tsx:49-51 | Two listeners waiting for identical buffers are both settled by the first response for that buffer. |
| ImageContainer.DeliveryToFirstOfTwo | app/src/ui/diff/image-diffs/image-container.tsx:49-51 | Of two listeners with different buffers, the response for the first settles only the first. The second stays live. |
| ImageContainer.DeliveryToIdenticalPair | app/src/ui/diff/image-diffs/image-container.tsx:49-51 | Two listeners with the same buffer are both settled by one response, in registration order, and neither survives. |
| ImageContainer.SettledAtMostOnce | app/src/ui/diff/image-diffs/image-container.tsx:50-51 | While promises are unique, no promise is settled twice. No settled promise is still waiting. |
| ImageContainer.DeliveryKeepsUnique | app/src/ui/diff/image-diffs/image-container.tsx:50-51 | A delivery keeps every promise unique across the live listeners and the settlements. No unknown promise appears. |
| ImageContainer.RunListeners | app/src/ui/diff/image-diffs/image-container.tsx:44-52 | Running each listener in registration order updates the table to the survivors and settles the matching promises, in order. |
| ImageContainer.Renderer.constructor | app/src/ui/diff/image-diffs/image-container.tsx:53 | The registry starts with no listeners, no messages sent and nothing settled. |
| ImageContainer.Renderer.ConvertDDSImage | app/src/ui/diff/image-diffs/image-container.tsx:40-56 | Adds a listener for a fresh promise and the buffer, then sends the buffer. Nothing is settled. Uniqueness is kept. |
| ImageContainer.Renderer.Deliver | app/src/ui/diff/image-diffs/image-container.tsx:44-52 | A `gpu-dataURL` message leaves exactly the survivors live. It appends exactly the matching settlements. Uniqueness is kept. |
| ImageContainer.DataUri | app/src/ui/diff/image-diffs/image-container.tsx:71 | The inline source is `data:`, then the media type, then `;base64,`, then the contents, at those exact positions. |
| ImageContainer.DataUriRoundTrip | app/src/ui/diff/image-diffs/image-container.tsx:71 | For a media type without `;`, the data URI gives back the media type and contents it was built from. |
| ImageContainer.ImageContainer.constructor | app/src/ui/diff/image-diffs/image-container.tsx:33-38 | A new component has a `null` source, renders nothing and waits for nothing. |
| ImageContainer.ImageContainer.LoadImage | app/src/ui/diff/image-diffs/image-container.tsx:58-74 | A DDS image registers exactly one request for its raw bytes and sends it. It waits for that promise and leaves the source as it was. Any other image sets the source to its data URI and sends nothing. |
| ImageContainer.ImageContainer.Resume | app/src/ui/diff/image-diffs/image-container.tsx:60-68 | Resumes an awaited conversion. A fulfilment must carry the data URL a listener settled the promise with, and it sets the source to that URL. A rejection is possible only for a promise no listener settled, and it sets the source to `null`. Afterwards any source shown is the settled data URL of that promise. |
| ImageContainer.ImageContainer.Render | app/src/ui/diff/image-diffs/image-container.tsx:90-94 | Renders nothing exactly when the source is `null` or empty. Otherwise it renders an image showing that source. |
| Pipeline.WorkerReply | app/src/gpu/gpu-app.tsx:22-24 | The GPU page's reply echoes the request's buffer. |
| Pipeline.ConcurrentConversions | app/src/ui/diff/image-diffs/image-container.tsx:40-61 | A component's DDS request goes through the supervisor unchanged, and the reply to it arrives first. The component shows the decoding of its own bytes. A different request still waits. |
| Pipeline.IdenticalConversions | app/src/ui/diff/image-diffs/image-container.tsx:49-51 | Two requests with identical bytes are both settled by the first reply, with the same data URL. Nothing is left waiting. |
| Pipeline.InlineImage | app/src/ui/diff/image-diffs/image-container.tsx:69-73 | A non-DDS image whose media type has no `;` is rendered from a data URI that parses back to its media type and contents. No request is sent. |

## Left out

- BrowserWindow construction options and platform chrome (`gpu-window.ts:24-49`), `loadURL`, `focus`, `show`, `destroy` and `openDevTools`: Electron side effects. The development branch of `did-fail-load` is modelled as notifying nobody.
- Registration of the window as a trusted IPC sender: a call into code that is not part of this model.
- `log.debug`, `log.error` and `console.error`: logging only. `did-start-loading`'s once-handler only logs, so the model does not track whether it is still armed.
- GpuWindow.GPUWindow.OnDidLoad: the `Disposable` that `onDidLoad` returns is not modelled, so listeners are never removed.
- Events after the window has closed. Electron destroys the closed window's webContents, so a forwarder that still runs sends nothing. This is modelled as a conversion request forwarding nothing. The error that dereferencing the destroyed webContents raises in the main process is not modelled. `gpu-ready` and `did-fail-load` are not gated on `closed`: the shown code does not gate them, and whether Electron still delivers them to a closed window is outside the code.
- Electron's dispatch of one event to several handlers is modelled as running them in registration order.
- Promise and async scheduling: each delivery and each `Resume` is one atomic step, and their interleaving is the caller's choice.
- The route of the `gpu-dataURL` reply back to the renderer: the supervisor does not relay it. `Renderer.Deliver` stands for that reply reaching the renderer.
- The DDS decoder and the canvas rendering behind it: a foreign module. It enters as the function parameter `decode`.
- `app/src/gpu/index.tsx` and the React plumbing of `gpu-app.tsx`. Only the echo `(contents, decode(contents))` is kept.
- React lifecycle: `componentDidMount`, `componentDidUpdate`'s identity check, the JSX wrapper, `style` and `onLoad`/`onElementLoad`.
- ImageContainer.ImageContainer.Resume: the code never calls `reject`. A rejection can only come from a throw inside the promise's executor, while it registers the listener or sends the request. The model does not say which call throws, and represents that case as the `Rejected` outcome of a promise that was never settled.
- ImageContainer.DataUriRoundTrip: round trips only for media types without `;`. The builder itself accepts any media type.
