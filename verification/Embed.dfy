// The embedding API in two layers: the process-wide runtime behind the C
// functions, and the C++ wrapper that owns a module.
module Embed {
  import opened Text

  // Compiled code: its result for arguments, or None for a panic.
  datatype Code = Code(run: seq<int> -> Option<int>)

  type Functions = map<string, Code>

  datatype Global = Global(modules: map<string, Functions>, active: Option<string>)

  datatype Error =
    | NullPath | LoadFailed | NullName | NullOut | NullArgs | NotInitialized | NoModule | ActiveMissing
    | NoFunction | TooManyArgs | Panicked | NotLoaded

  datatype Reply = Returned(value: int) | Failed(error: Error)

  const EMPTY := Global(map[], None)

  // The module table after a successful load.
  function Activated(state: Option<Global>, path: string, functions: Functions): Option<Global> {
    var g := if state.Some? then state.value else EMPTY;
    Some(Global(g.modules[path := functions], Some(path)))
  }

  function Find(state: Option<Global>, name: string): Option<Code> {
    if state.None? || state.value.active.None? then None else
    var path := state.value.active.value;
    if path in state.value.modules && name in state.value.modules[path]
    then Some(state.value.modules[path][name]) else None
  }

  // Why a name is not found.
  function Missing(state: Option<Global>): Error {
    if state.None? then NotInitialized
    else if state.value.active.None? then NoModule
    else if state.value.active.value !in state.value.modules then ActiveMissing
    else NoFunction
  }

  function Invoke(code: Code, args: seq<int>): Reply {
    if |args| > 8 then Failed(TooManyArgs) else
    var r := code.run(args);
    if r.Some? then Returned(r.value) else Failed(Panicked)
  }

  // A call with its pointers in order.
  function Answer(state: Option<Global>, name: string, args: seq<int>): Reply {
    var code := Find(state, name);
    if code.None? then Failed(Missing(state)) else Invoke(code.value, args)
  }

  // A call as C passes it: null pointers are refused first.
  function CallReply(state: Option<Global>, name: Option<string>, args: Option<seq<int>>, count: nat, out: bool): Reply
    requires args.Some? ==> count <= |args.value|
  {
    if name.None? then Failed(NullName)
    else if !out then Failed(NullOut)
    else if count > 0 && args.None? then Failed(NullArgs)
    else Answer(state, name.value, if args.None? then [] else args.value[..count])
  }

  class Cell {
    var value: int
    constructor (value: int)
      ensures this.value == value
    {
      this.value := value;
    }
  }

  class Runtime {
    var state: Option<Global>
    var lastError: Option<Error>

    constructor ()
      ensures state.None? && lastError.None?
    {
      state, lastError := None, None;
    }

    method Init() returns (rc: int)
      modifies this
      ensures rc == 0 && state == Some(EMPTY) && lastError.None?
    {
      state, lastError := Some(EMPTY), None;
      rc := 0;
    }

    // `compiled` is what the compiler makes of the file, None when any step fails.
    method LoadModule(path: Option<string>, compiled: Option<Functions>) returns (rc: int)
      modifies this
      ensures if path.Some? && compiled.Some?
              then rc == 0 && state == Activated(old(state), path.value, compiled.value) && lastError.None?
              else rc == -1 && state == old(state) && lastError == Some(if path.None? then NullPath else LoadFailed)
    {
      if path.None? {
        lastError := Some(NullPath);
        return -1;
      }
      if compiled.None? {
        lastError := Some(LoadFailed);
        return -1;
      }
      var g := if state.Some? then state.value else EMPTY;
      g := Global(g.modules[path.value := compiled.value], g.active);
      g := Global(g.modules, path);
      state, lastError := Some(g), None;
      rc := 0;
    }

    // A failed call says why, and leaves the result and the state alone.
    method CallFn(name: Option<string>, args: Option<seq<int>>, count: nat, out: Cell?) returns (rc: int)
      requires args.Some? ==> count <= |args.value|
      modifies this`lastError, out
      ensures var r := CallReply(old(state), name, args, count, out != null);
              match r
              case Returned(value) => rc == 0 && out != null && out.value == value && lastError == old(lastError)
              case Failed(error) =>
                rc == -1 && lastError == Some(error) && (out != null ==> out.value == old(out.value))
    {
      rc := -1;
      if name.None? {
        lastError := Some(NullName);
        return;
      }
      if out == null {
        lastError := Some(NullOut);
        return;
      }
      if count > 0 && args.None? {
        lastError := Some(NullArgs);
        return;
      }
      if state.None? {
        lastError := Some(NotInitialized);
        return;
      }
      if state.value.active.None? {
        lastError := Some(NoModule);
        return;
      }
      var path := state.value.active.value;
      if path !in state.value.modules {
        lastError := Some(ActiveMissing);
        return;
      }
      if name.value !in state.value.modules[path] {
        lastError := Some(NoFunction);
        return;
      }
      var code := state.value.modules[path][name.value];
      var slice := if args.None? then [] else args.value[..count];
      if count > 8 {
        lastError := Some(TooManyArgs);
        return;
      }
      var result := code.run(slice);
      if result.None? {
        lastError := Some(Panicked);
        return;
      }
      out.value := result.value;
      rc := 0;
    }

    method Shutdown() returns (rc: int)
      modifies this
      ensures rc == 0 && state.None? && lastError.None?
    {
      state, lastError := None, None;
      rc := 0;
    }
  }

  // The wrapper

  // What C sees of a string: it stops at the first NUL.
  function UpToNul(s: string): string {
    if s == "" || s[0] == '\0' then "" else [s[0]] + UpToNul(s[1..])
  }

  datatype Wrapper = Wrapper(path: string, loaded: bool)

  datatype Layers = Layers(state: Option<Global>, w: Wrapper)

  function ResetLayers(l: Layers): Layers {
    if l.w.loaded then Layers(None, Wrapper("", false)) else l
  }

  function LoadLayers(l: Layers, path: string, compiled: Option<Functions>): Layers {
    var w := ResetLayers(l).w;
    if compiled.None? then Layers(Some(EMPTY), w)
    else Layers(Activated(Some(EMPTY), UpToNul(path), compiled.value), Wrapper(path, true))
  }

  function CallLayers(l: Layers, name: Option<string>, args: seq<int>): Reply {
    if !l.w.loaded then Failed(NotLoaded)
    else CallReply(l.state, name, if |args| > 0 then Some(args) else None, |args|, true)
  }

  class Module {
    const runtime: Runtime
    var path: string
    var isLoaded: bool

    function State(): Layers
      reads this, runtime
    {
      Layers(runtime.state, Wrapper(path, isLoaded))
    }

    constructor (runtime: Runtime)
      ensures this.runtime == runtime && !isLoaded && path == ""
    {
      this.runtime, path, isLoaded := runtime, "", false;
    }

    // Move construction
    constructor MoveFrom(other: Module)
      modifies other
      ensures runtime == other.runtime && State() == old(other.State())
      ensures other.State().w == Wrapper("", false)
    {
      runtime, path, isLoaded := other.runtime, other.path, other.isLoaded;
      new;
      other.path := "";
      other.isLoaded := false;
    }

    method Reset()
      modifies this, runtime
      ensures State() == ResetLayers(old(State()))
    {
      if isLoaded {
        var _ := runtime.Shutdown();
        isLoaded := false;
        path := "";
      }
    }

    // `ok` is false when the load throws.
    method Load(path: string, compiled: Option<Functions>) returns (ok: bool)
      modifies this, runtime
      ensures State() == LoadLayers(old(State()), path, compiled) && ok == compiled.Some?
    {
      Reset();
      var rc := runtime.Init();
      rc := runtime.LoadModule(Some(UpToNul(path)), compiled);
      if rc != 0 {
        return false;
      }
      this.path := path;
      isLoaded := true;
      return true;
    }

    // Failed replies are thrown.
    method Call(name: Option<string>, args: seq<int>) returns (reply: Reply)
      modifies runtime
      ensures State() == old(State()) && reply == CallLayers(State(), name, args)
    {
      if !isLoaded {
        return Failed(NotLoaded);
      }
      var out := new Cell(0);
      var rc := runtime.CallFn(name, if |args| > 0 then Some(args) else None, |args|, out);
      if rc != 0 {
        return Failed(runtime.lastError.value);
      }
      return Returned(out.value);
    }

    // Move assignment; a moved-from wrapper is unloaded, and its path not used again.
    method Take(other: Module)
      requires other.runtime == runtime
      modifies this, other, runtime
      ensures if other == this then State() == old(State()) else
              var was := old(other.State().w);
              State() == Layers(ResetLayers(old(State())).state, was) && other.State().w == Wrapper("", false)
    {
      if this != other {
        Reset();
        path := other.path;
        isLoaded := other.isLoaded;
        other.path := "";
        other.isLoaded := false;
      }
    }
  }
}
