/** The errors that the library returns (or panics with), one constructor per message. */
module Errors {

  datatype Error =
    // function/function.go
    | InvalidIgnoreIndex(idx: int)
    | ParamCountMismatch(fnName: string)
    | ArityMismatch(fnName: string, ignored: nat)
    | InvalidParameter(raw: string, fnName: string)
    // the panic raised by a Callable invoked with the wrong number of ignored values
    | IgnoreCountMismatch(fnName: string, required: nat, provided: nat)
    // llm/resolver.go
    | InvalidFuncStr(funcStr: string)
    | InvalidParameters(paramStr: string)
    | NoChoices
    | NoCalls
    | UnknownFunction(fnName: string)
    // agent.go and error.go
    | EmptyUserInput
    | FunctionExists(fnName: string)
    | ResolverAddFailed(fnName: string)
    | FunctionNotExist(fnName: string)
    // errors produced by collaborators outside the model (disk, definer, language model)
    | FileNotExist(path: string)
    | External(msg: string)
}
