/**
 * The agent of package `nlcall`: a name-keyed registry of functions that it
 * shares with its resolver, the registration options, and the assignment of
 * a user's sentence to a registered function or a ready-to-call closure.
 *
 * The definer, the definition files on disk and the language model are
 * collaborators whose answers are parameters.
 */
module Nlcall {
  import opened Wrappers
  import opened Errors
  import Function
  import Llm

  datatype RegisterOption =
    | WithLoadDefDir(loadDir: string)
    | WithSaveDefDir(saveDir: string)
    | WithOverwrite(overwrite: bool)

  /** The options of RegisterFn; the zero value has both directories empty. */
  datatype RegisterOpts = RegisterOpts(loadDefDir: string, saveDefDir: string, overwrite: bool)

  const ZeroOpts: RegisterOpts := RegisterOpts("", "", false)

  /** What one option does to the options record. */
  function Apply(o: RegisterOpts, opt: RegisterOption): RegisterOpts {
    match opt
    case WithLoadDefDir(path) => o.(loadDefDir := path)
    case WithSaveDefDir(path) => o.(saveDefDir := path)
    case WithOverwrite(b) => o.(overwrite := b)
  }

  /** The options applied one after the other, from the left. */
  function ApplyAll(o: RegisterOpts, opts: seq<RegisterOption>): RegisterOpts {
    if opts == [] then o else Apply(ApplyAll(o, opts[..|opts| - 1]), opts[|opts| - 1])
  }

  /** buildRegisterOpts: every option applied, in order, to the zero value. */
  method BuildRegisterOpts(opts: seq<RegisterOption>) returns (r: RegisterOpts)
    ensures r == ApplyAll(ZeroOpts, opts)
  {
    r := ZeroOpts;
    for k := 0 to |opts|
      invariant r == ApplyAll(ZeroOpts, opts[..k])
    {
      assert opts[..k + 1][..k] == opts[..k];
      r := Apply(r, opts[k]);
    }
    assert opts[..|opts|] == opts;
  }

  predicate LastLoad(opts: seq<RegisterOption>, k: int) {
    0 <= k < |opts| && opts[k].WithLoadDefDir? && forall k' :: k < k' < |opts| ==> !opts[k'].WithLoadDefDir?
  }

  predicate LastSave(opts: seq<RegisterOption>, k: int) {
    0 <= k < |opts| && opts[k].WithSaveDefDir? && forall k' :: k < k' < |opts| ==> !opts[k'].WithSaveDefDir?
  }

  predicate LastOverwrite(opts: seq<RegisterOption>, k: int) {
    0 <= k < |opts| && opts[k].WithOverwrite? && forall k' :: k < k' < |opts| ==> !opts[k'].WithOverwrite?
  }

  /** The load directory is the one the last WithLoadDefDir set, or the starting one if none does. */
  lemma {:induction false} LastLoadWins(o: RegisterOpts, opts: seq<RegisterOption>)
    ensures forall k :: LastLoad(opts, k) ==> ApplyAll(o, opts).loadDefDir == opts[k].loadDir
    ensures (forall k :: 0 <= k < |opts| ==> !opts[k].WithLoadDefDir?) ==> ApplyAll(o, opts).loadDefDir == o.loadDefDir
  {
    if opts != [] {
      var n := |opts|;
      var front := opts[..n - 1];
      LastLoadWins(o, front);
      assert ApplyAll(o, opts) == Apply(ApplyAll(o, front), opts[n - 1]);
      if !opts[n - 1].WithLoadDefDir? {
        forall k | LastLoad(opts, k) ensures LastLoad(front, k) {
          assert forall k' :: k < k' < n - 1 ==> front[k'] == opts[k'];
        }
      }
    }
  }

  /** The save directory is the one the last WithSaveDefDir set, or the starting one if none does. */
  lemma {:induction false} LastSaveWins(o: RegisterOpts, opts: seq<RegisterOption>)
    ensures forall k :: LastSave(opts, k) ==> ApplyAll(o, opts).saveDefDir == opts[k].saveDir
    ensures (forall k :: 0 <= k < |opts| ==> !opts[k].WithSaveDefDir?) ==> ApplyAll(o, opts).saveDefDir == o.saveDefDir
  {
    if opts != [] {
      var n := |opts|;
      var front := opts[..n - 1];
      LastSaveWins(o, front);
      assert ApplyAll(o, opts) == Apply(ApplyAll(o, front), opts[n - 1]);
      if !opts[n - 1].WithSaveDefDir? {
        forall k | LastSave(opts, k) ensures LastSave(front, k) {
          assert forall k' :: k < k' < n - 1 ==> front[k'] == opts[k'];
        }
      }
    }
  }

  /** The overwrite flag is what the last WithOverwrite set, or the starting one if none does. */
  lemma {:induction false} LastOverwriteWins(o: RegisterOpts, opts: seq<RegisterOption>)
    ensures forall k :: LastOverwrite(opts, k) ==> ApplyAll(o, opts).overwrite == opts[k].overwrite
    ensures (forall k :: 0 <= k < |opts| ==> !opts[k].WithOverwrite?) ==> ApplyAll(o, opts).overwrite == o.overwrite
  {
    if opts != [] {
      var n := |opts|;
      var front := opts[..n - 1];
      LastOverwriteWins(o, front);
      assert ApplyAll(o, opts) == Apply(ApplyAll(o, front), opts[n - 1]);
      if !opts[n - 1].WithOverwrite? {
        forall k | LastOverwrite(opts, k) ensures LastOverwrite(front, k) {
          assert forall k' :: k < k' < n - 1 ==> front[k'] == opts[k'];
        }
      }
    }
  }

  /**
   * Where RegisterFn's definition comes from: with a load directory, the
   * file's definition, falling back to the definer only when the file does
   * not exist; without one, the definer.
   */
  function DefSource(o: RegisterOpts, load: Result<Function.Definition, Error>, define: Result<Function.Definition, Error>): Result<Function.Definition, Error> {
    if o.loadDefDir != "" then
      if load.Failure? && load.error.FileNotExist? then define else load
    else
      define
  }

  class Agent {
    const resolver: Llm.Resolver
    var funcMap: map<string, Function.Function>
    var funcKeys: seq<string>

    /**
     * Names are registered once each and in `funcKeys` order, every stored
     * function is well formed and stored under its own name.
     */
    ghost predicate Valid()
      reads this, resolver
    {
      && resolver.Valid()
      && Function.Distinct(funcKeys)
      && (forall n :: n in funcMap <==> n in funcKeys)
      && (forall n :: n in funcMap ==> funcMap[n].Valid() && funcMap[n].GetName() == n)
    }

    /** NewAgent: an empty registry over the given resolver. */
    constructor (resolver: Llm.Resolver)
      requires resolver.Valid()
      ensures this.resolver == resolver && funcMap == map[] && funcKeys == []
      ensures Valid()
    {
      this.resolver := resolver;
      funcMap := map[];
      funcKeys := [];
    }

    /** GetFunc: the stored function for a registered name, an error for any other. */
    function GetFunc(funcName: string): (r: Result<Function.Function, Error>)
      reads this
      ensures r.Success? <==> funcName in funcMap
      ensures r.Success? ==> r.value == funcMap[funcName]
      ensures r.Failure? ==> r.error == FunctionNotExist(funcName)
    {
      if funcName in funcMap then Success(funcMap[funcName]) else Failure(FunctionNotExist(funcName))
    }

    /**
     * RegisterFunc: refuses a name already registered and changes nothing
     * then. Otherwise stores the function, appends its name and hands it to
     * the resolver; a refusal by the resolver is reported, but the function
     * stays registered with the agent.
     */
    method RegisterFunc(f: Function.Function) returns (err: Option<Error>)
      requires Valid() && f.Valid()
      modifies this, resolver
      ensures Valid()
      ensures f.GetName() in old(funcMap) ==>
        err == Some(FunctionExists(f.GetName())) && funcMap == old(funcMap) && funcKeys == old(funcKeys)
        && unchanged(resolver)
      ensures f.GetName() !in old(funcMap) ==>
        funcMap == old(funcMap)[f.GetName() := f] && funcKeys == old(funcKeys) + [f.GetName()]
        && GetFunc(f.GetName()) == Success(f)
      ensures f.GetName() !in old(funcMap) && f.GetName() in old(resolver.fnName2fn) ==>
        err == Some(ResolverAddFailed(f.GetName())) && unchanged(resolver)
      ensures f.GetName() !in old(funcMap) && f.GetName() !in old(resolver.fnName2fn) ==>
        err == None && resolver.fnName2fn == old(resolver.fnName2fn)[f.GetName() := f]
        && resolver.fnNames == old(resolver.fnNames) + [f.GetName()]
    {
      var name := f.GetName();
      if name in funcMap {
        return Some(FunctionExists(name));
      }
      funcMap := funcMap[name := f];
      funcKeys := funcKeys + [name];
      var ok := resolver.AddFunc(f);
      if !ok {
        return Some(ResolverAddFailed(name));
      }
      err := None;
    }

    /**
     * RegisterFn: builds the options, obtains the definition (see
     * DefSource), creates the function with no ignored slots, registers it
     * and, with a save directory, saves the definition. `load`, `define`
     * and `save` are what loading, the definer and saving report. A save
     * error is returned after the function has been registered.
     */
    method RegisterFn(fn: Function.Callee, sig: Function.Signature, opts: seq<RegisterOption>,
                      load: Result<Function.Definition, Error>, define: Result<Function.Definition, Error>,
                      save: Option<Error>) returns (r: Result<Function.Function, Error>)
      requires Valid() && sig.Valid()
      modifies this, resolver
      ensures Valid()
      ensures DefSource(ApplyAll(ZeroOpts, opts), load, define).Failure? ==>
        r == Failure(DefSource(ApplyAll(ZeroOpts, opts), load, define).error)
        && funcMap == old(funcMap) && funcKeys == old(funcKeys) && unchanged(resolver)
      ensures DefSource(ApplyAll(ZeroOpts, opts), load, define).Success? ==>
        var def := DefSource(ApplyAll(ZeroOpts, opts), load, define).value;
        && (def.parameters.None? && |sig.slots| != 0 ==>
              r == Failure(ArityMismatch(def.name, 0))
              && funcMap == old(funcMap) && funcKeys == old(funcKeys) && unchanged(resolver))
        && (!(def.parameters.None? && |sig.slots| != 0) && def.name in old(funcMap) ==>
              r == Failure(FunctionExists(def.name))
              && funcMap == old(funcMap) && funcKeys == old(funcKeys) && unchanged(resolver))
        && (!(def.parameters.None? && |sig.slots| != 0) && def.name !in old(funcMap) ==>
              && def.name in funcMap && fresh(funcMap[def.name])
              && funcMap == old(funcMap)[def.name := funcMap[def.name]]
              && funcKeys == old(funcKeys) + [def.name]
              && funcMap[def.name].def == def && funcMap[def.name].ignoreIdx == []
              && funcMap[def.name].fn == fn && funcMap[def.name].sig == sig
              && (def.name in old(resolver.fnName2fn) ==> unchanged(resolver))
              && (def.name !in old(resolver.fnName2fn) ==>
                    && resolver.fnName2fn == old(resolver.fnName2fn)[def.name := funcMap[def.name]]
                    && resolver.fnNames == old(resolver.fnNames) + [def.name])
              && r == (if def.name in old(resolver.fnName2fn) then Failure(ResolverAddFailed(def.name))
                       else if ApplyAll(ZeroOpts, opts).saveDefDir != "" && save.Some? then Failure(save.value)
                       else Success(funcMap[def.name])))
    {
      var registerOpts := BuildRegisterOpts(opts);
      var def := DefSource(registerOpts, load, define);
      if def.Failure? {
        return Failure(def.error);
      }
      var f := Function.CreateFunction(fn, sig, def.value, []);
      assert (set x: int | x in []) == {};
      if f.Failure? {
        return Failure(f.error);
      }
      var err := RegisterFunc(f.value);
      if err.Some? {
        return Failure(err.value);
      }
      if registerOpts.saveDefDir != "" && save.Some? {
        return Failure(save.value);
      }
      r := Success(f.value);
    }

    /** The function a resolution names, or the error that stops the assignment. */
    function Assigned(resolution: Result<Function.Call, Error>): (r: Result<Function.Function, Error>)
      reads this
      ensures r.Success? <==> resolution.Success? && resolution.value.name in funcMap
      ensures r.Success? ==> r.value == funcMap[resolution.value.name]
      ensures Valid() && r.Success? ==> r.value.Valid() && r.value.GetName() == resolution.value.name
    {
      match resolution
      case Failure(e) => Failure(e)
      case Success(call) => GetFunc(call.name)
    }

    /**
     * AssignFunc: refuses the empty input before consulting the resolver;
     * otherwise the function the resolved call names. The raw parameters
     * it returns are never assigned.
     */
    method AssignFunc(userInput: string, split: Llm.JsonSplit, toolArgs: Llm.ToolArgs) returns (f: Result<Function.Function, Error>, rawParams: Option<seq<string>>)
      requires Valid()
      ensures rawParams == None
      ensures userInput == "" ==> f == Failure(EmptyUserInput)
      ensures userInput != "" ==> f == Assigned(resolver.Resolution(userInput, split, toolArgs))
      ensures f.Success? ==> f.value in funcMap.Values && f.value.Valid()
    {
      rawParams := None;
      if userInput == "" {
        return Failure(EmptyUserInput), None;
      }
      var call := resolver.Resolve(userInput, split, toolArgs);
      if call.Failure? {
        return Failure(call.error), None;
      }
      f := GetFunc(call.value.name);
      if f.Failure? {
        return Failure(f.error), None;
      }
    }

    /**
     * AssignCallable: like AssignFunc, then binds the resolved parameters to
     * the function; the bind error, if any, is returned.
     */
    method AssignCallable(userInput: string, split: Llm.JsonSplit, toolArgs: Llm.ToolArgs, parse: Function.Parser) returns (r: Result<Function.Callable, Error>)
      requires Valid() && Function.SliceDecodesToList(parse)
      ensures userInput == "" ==> r == Failure(EmptyUserInput)
      ensures userInput != "" && Assigned(resolver.Resolution(userInput, split, toolArgs)).Failure? ==>
        r == Failure(Assigned(resolver.Resolution(userInput, split, toolArgs)).error)
      ensures userInput != "" && Assigned(resolver.Resolution(userInput, split, toolArgs)).Success? ==>
        var f := Assigned(resolver.Resolution(userInput, split, toolArgs)).value;
        var p := resolver.Resolution(userInput, split, toolArgs).value.params;
        f.Valid() && p.IsRaw()
        && (Function.RawParamsReady(f.Binding(), p, parse);
            && (r.Failure? <==> f.Binding().Bind(p, parse).Failure?)
            && (r.Failure? ==> r.error == f.Binding().Bind(p, parse).error)
            && (r.Success? ==> fresh(r.value) && r.value.f == f && r.value.params == f.Binding().Bind(p, parse).value))
    {
      if userInput == "" {
        return Failure(EmptyUserInput);
      }
      var call := resolver.Resolve(userInput, split, toolArgs);
      if call.Failure? {
        return Failure(call.error);
      }
      var f := GetFunc(call.value.name);
      if f.Failure? {
        return Failure(f.error);
      }
      resolver.ResolutionIsRaw(userInput, split, toolArgs);
      Function.RawParamsReady(f.value.Binding(), call.value.params, parse);
      var callable := f.value.GetCallable(call.value.params, parse);
      if callable.Failure? {
        return Failure(callable.error);
      }
      r := Success(callable.value);
    }
  }
}
