/** What the helpers see of the TensorFlow Lite runtime.  Loading a model, creating a GPU
    delegate, reading a label file and running inference are foreign calls: here they are
    function values handed to each operation, and a `None` or `Threw` result stands for the
    exception the call would raise. */
module Engine {
  import opened Wrappers
  import opened ColorConversion

  /** Element type of a model's input tensor. */
  datatype DataType = UInt8 | Int8 | Float32

  /** A GPU delegate instance. */
  datatype GpuDelegate = GpuDelegate(id: nat)

  /** `Interpreter.Options` as the helpers configure them. */
  datatype Options = Options(numThreads: nat, useNnapi: bool, delegate: Option<GpuDelegate>)

  /** A loaded interpreter, reduced to what the helpers read of it: the shapes and input type
      of tensor 0 and the options it was built with. */
  datatype Interpreter = Interpreter(
    id: nat, options: Options, inputShape: seq<int>, inputType: DataType, outputShape: seq<int>)

  /** The rewound input buffer handed to `run`: raw bytes or 32-bit floats. */
  datatype TensorInput = Quantized(bytes: seq<uint8>) | Float(values: seq<real>)

  /** What an inference call produced: the filled output tensor, or an exception and its
      message (`getMessage()` may be null). */
  datatype RunOutcome<T> = Ran(output: T) | Threw(message: Option<string>)

  /** A native resource that `close()` releases. */
  datatype Native = InterpreterHandle(interpreter: Interpreter) | DelegateHandle(delegate: GpuDelegate)

  /** The reply of a `loadModels` call: `success(true)` or `error(code, …)`. */
  datatype LoadReply = Loaded | LoadFailed(code: string)

  /** The delegate the options get: a fresh `GpuDelegate` when the GPU was asked for and its
      constructor did not throw (`created`), otherwise none. */
  function RequestedDelegate(useGpu: bool, created: Option<GpuDelegate>): (d: Option<GpuDelegate>)
    ensures d.Some? <==> useGpu && created.Some?
    ensures d.Some? ==> d == created
  {
    if useGpu then created else None
  }

  /** The first-choice options of both helpers: four threads, and NNAPI unless a GPU delegate
      was added (enabling NNAPI first and switching it off once the delegate is in gives this). */
  function PreferredOptions(delegate: Option<GpuDelegate>): (o: Options)
    ensures o.numThreads == 4 && o.delegate == delegate
    ensures o.useNnapi <==> delegate.None?
  {
    Options(4, delegate.None?, delegate)
  }

  /** The ball detector's fallback options: one thread, NNAPI, no delegate. */
  const MinimalOptions: Options := Options(1, true, None)

  /** The fallback is a different configuration from every first choice: a single thread and
      no GPU delegate, with NNAPI on. */
  lemma FallbackDiffersFromPreferred(delegate: Option<GpuDelegate>)
    ensures MinimalOptions.numThreads == 1 && MinimalOptions.useNnapi && MinimalOptions.delegate.None?
    ensures MinimalOptions != PreferredOptions(delegate)
    ensures MinimalOptions.numThreads < PreferredOptions(delegate).numThreads
  {
  }
}
