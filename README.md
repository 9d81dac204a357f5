# nlcall in Dafny

nlcall lets a Go program register ordinary Go functions and have a language
model choose one of them for a sentence written by a user. The model
answers with a calling string such as `add(1,2)`. The library parses that
string and binds the arguments to the function's positional slots. Slots
marked as "ignored", such as a `context.Context`, are filled by the caller
at call time.

This project models the parts of the library that carry logic:

- `function` package (`function.dfy`, module `Function`):
  - `CreateFunction` normalises the ignored indices.
  - The binder maps supplied parameters onto slots. It is specified by the
    `Layout` functions and implemented by the slot walk in `BuildParams`.
  - The `Callable` closure fills the ignored slots.
  - `Call` and the `FuncInfo` cache.
- `llm` resolver (`resolver.dfy`, module `Llm`):
  - The name-keyed registry and the system prompt.
  - A model of the pattern `(\w+)\((.*)\)`, with leftmost-first and greedy
    semantics.
  - `parseFuncStr`.
  - The choice between the tool strategy and the prompt strategy.
- Agent in `agent.go` (`agent.dfy`, module `Nlcall`):
  - Registration and the registration options.
  - Where a definition comes from.
  - Assigning a sentence to a function or a closure.
- Example functions (`funcs.dfy`, module `Example`): `add` and `mul` with
  64-bit wrap-around, and the sliding window of `lengthOfLongestSubstring`.
- `binding_cases.dfy` (module `BindingCases`) proves what the binder and
  `Call` return for the three calls of the package's creation test: `add`,
  `sayHello` and `addMulti`.

`errors.dfy` has one constructor per error message. `wrappers.dfy` holds
`Option` and `Result`.

The model replaces some parts of Go with parameters:

- Reflection becomes an explicit `Signature`: one `SlotType` per slot, plus
  a flag for a variadic last slot.
- `json.Unmarshal` of a fragment becomes a `Parser` parameter.
- Splitting a JSON array (RFC 8259, section 5) becomes a `JsonSplit`
  parameter.
- The wrapped Go function becomes a `Callee` from argument vector to result
  vector.
- The language model is a `Client` value fixed when the resolver is built.
- In the tool strategy, the step that turns a tool call's JSON arguments
  into raw fragments becomes a `ToolArgs` parameter. That step reads the
  function's `FuncInfo`, decodes the arguments object and marshals each
  parameter's value again.
- Loading and saving definitions, and the definer, appear only as the
  results they report.

Consequences of the code as written:

- The system prompt is rebuilt only when the client can also do tool
  calling (`llm/resolver.go:162-164`). So the prompt strategy, which runs
  only without such a client, always sends an empty system message. The
  invariant `Llm.Resolver.Valid` and `Llm.Resolver.Resolve` state this.
- `json.Marshal` of a `*function.Function` sees no exported field. So each
  entry of a rebuilt prompt is `{}`.
- A raw fragment for the variadic slot is decoded into the slot's slice
  type and then expanded element by element. `reflect.SliceOf(ft.In(i)).Elem()`
  on `function/function.go:116` is `ft.In(i)` itself, which `ft.In` reports
  as a slice type for a variadic slot. This is what the comment on line 115
  and the `addMulti` test (`function/function_test.go:122-124`) expect. So
  a raw `[1,2,3]` binds to `func(nums ...int)` (`BindingCases.SumCase`).

## Model

| member | source | states |
|---|---|---|
| Function.Params.IsRaw | function/function.go:189-191 | raw mode exactly when no typed slice is given; an empty typed slice is still typed mode, as a non-nil empty Go slice is |
| Function.Params.Len | function/function.go:193-198 | the count of typed values when `Params` is set, else the count of raw fragments |
| Function.Params.GetRaw | function/function.go:200-202 | fragment `i` of the raw parameters, for an index in range |
| Function.Params.Get | function/function.go:204-206 | typed value `i`, for an index in range |
| Function.IgnoreSet | function/function.go:92-95 | the map built from the ignored indices holds exactly those indices |
| Function.CollectKeys | function/function.go:64-67 | the keys of the index map, duplicate-free, with exactly the map's elements, in a fresh array |
| Function.SortInts | function/function.go:68 | `sort.Ints`: the array ends sorted and is a permutation of its old contents |
| Function.SortedOfDistinct | function/function.go:64-68 | sorting duplicate-free keys yields a strictly ascending sequence with the same elements |
| Function.NormalizeIgnoreIdx | function/function.go:55-68 | fails iff some index lies outside `[0, ftN)`, and the error names the first such index; otherwise the result is strictly ascending, has exactly the input's elements, and every element is below `ftN` |
| Function.AscendingUnique | function/function.go:55-68 | two strictly ascending sequences with the same elements are equal, so the normalised indices depend only on the set given (`[2,0,2]` and `[0,2]` give the same function) |
| Function.DistinctCardinality | function/function.go:64-71 | the normalised list is as long as the set of given indices, which is the `len(igMap)` used for `fcN` |
| Function.CreateFunction | function/function.go:50-86 | fails iff an index is out of range (naming the first one) or the definition has no parameter schema while `ftN - len(igMap) != 0` (ArityMismatch); on success the fresh function keeps fn, signature and definition, its ignored indices are strictly ascending with the given elements, and it is well formed |
| Function.Layout.Prefix | function/function.go:106-141 | a walk that succeeds over slots `0..k` has produced one argument per slot, unless it has just expanded the variadic slot |
| Function.Layout.PrefixOutcome | function/function.go:106-141 | the walk over slots `0..k` fails iff some bound slot among them has a raw fragment that does not decode into the slot type; the error is InvalidParameter with the first such fragment and the function's name |
| Function.Layout.PrefixAt | function/function.go:106-139 | after a successful walk, each slot before the variadic one holds the placeholder if ignored and otherwise the value bound from its own parameter |
| Function.Layout.BindCountCheck | function/function.go:96-101 | binding fails with the count error iff the number of supplied parameters differs from the number of non-ignored slots; typed parameters of the right count always bind |
| Function.Layout.BindRawError | function/function.go:110-125 | with the right count, binding fails iff some bound raw fragment does not decode, and the error names the first such fragment |
| Function.Layout.BindRawTyped | function/function.go:110-128 | raw mode agrees with typed mode: when every bound fragment decodes to the typed value given for its slot, binding the fragments gives exactly what binding those typed values gives, argument vector or error |
| Function.Layout.BindShape | function/function.go:103-139 | a bound vector has one entry per slot, with ignored slots left `Invalid`; an expanded variadic slot is replaced by the elements of its decoded slice |
| Function.Layout.CursorConsumesEachParameterOnce | function/function.go:104-141 | the parameter cursor `j` starts at 0, advances exactly on non-ignored slots, ends at the supplied count, and is strictly increasing over bound slots, so every parameter is bound to exactly one slot in order |
| Function.RawParamsReady | function/function.go:111-136 | when decoding into a slice type always yields a slice, raw parameters leave the variadic slot expandable |
| Function.Function.constructor | function/function.go:79-85 | the new function holds exactly the given fn, signature, definition and ignored indices, with no cached info |
| Function.Function.BindSlot | function/function.go:110-140 | one step of the walk: a decode failure returns the binding's error; otherwise the vector is extended exactly as the binding specification says, including the element-by-element variadic expansion |
| Function.Function.BuildParams | function/function.go:88-141 | the slot walk with cursors `i` and `j` computes exactly the binding `Layout.Bind`, including its count and decode errors |
| Function.BindFitsIgnored | function/function.go:142-148 | every ignored index is a position of the bound vector, so the closure's writes stay in range |
| Function.FillAt | function/function.go:146-148 | after filling, slot `ignoreIdx[k]` holds `ignoreParams[k]` and every other slot is unchanged |
| Function.Function.GetCallable | function/function.go:88-158 | fails iff binding fails, with the binding's error; otherwise returns a fresh closure over the bound vector for this function |
| Function.Callable.constructor | function/function.go:142 | the closure captures the given function and bound vector |
| Function.Callable.Invoke | function/function.go:142-157 | with a count of ignored values other than the number of ignored slots, it panics (IgnoreCountMismatch naming both counts) and changes nothing; otherwise it writes each value into its slot and returns the function's results on the filled vector |
| Function.Function.Call | function/function.go:160-166 | the bind error, else the closure's panic, else the wrapped function's results on the filled vector |
| Function.Function.GetOrGenFuncInfo | function/function.go:168-177 | a cached record is returned unchanged; otherwise a successful lookup is cached and returned, and a failed one is returned without caching |
| BindingCases.AddCase | function/function_test.go:34-58 | `func(ctx, a, b int)` with slot 0 ignored and raw `"1"`, `"2"` binds to `[Invalid, 1, 2]`, and the context then fills slot 0 |
| BindingCases.SumCase | function/function_test.go:91-127 | `func(nums ...int)` with the single raw fragment `[1,2,3]` binds to the three arguments `1, 2, 3` |
| BindingCases.AddCall | function/function_test.go:34-58 | creating `add` with slot 0 ignored and calling it with raw `"1"`, `"2"` and a context yields `[3]` |
| BindingCases.HelloCall | function/function_test.go:60-88 | creating `sayHello` and calling it with the raw JSON string `"world"` yields `["Hello world!"]` |
| BindingCases.SumCall | function/function_test.go:91-127 | creating `addMulti` and calling it with the raw `[1,2,3]` yields `[6]` |
| BindingCases.AddCountCase | function/function.go:96-101 | one typed value for a function with two bound slots is refused with the count error |
| Llm.Resolver.constructor | llm/resolver.go:34-44 | an empty registry with an empty prompt; a tool client is detected from the client's capability |
| Llm.Resolver.AddFunc | llm/resolver.go:152-166 | a name already registered returns false and changes nothing; a new name is stored under its name, appended to the name list, returns true, and rebuilds the prompt only with a tool client; the invariant (distinct names, map keys equal to the list, empty prompt without a tool client) is kept |
| Llm.Resolver.RefreshSysPrompt | llm/resolver.go:176-185 | the prompt becomes the template with one marshalled entry per registered name, joined by newlines |
| Llm.SysPromptShape | llm/resolver.go:12-22 | a rebuilt prompt starts with the template's head and is `3n - 1` characters longer than the template without its `%s` for `n > 0` registered functions |
| Llm.Resolver.GetFuncDefs | llm/resolver.go:168-174 | one definition per registered name, in registration order, each the definition of the function registered under that name |
| Llm.Resolver.GetFuncStr | llm/resolver.go:110-124 | without a tool client the model is sent an empty system message; the result is the content of the first choice, NoChoices when the reply has none, or the client's error |
| Llm.ToolResolution | llm/resolver.go:58-96 | a resolved tool call is the first call of the first choice and names a registered function, and its parameters are raw: the fragments built from that call's arguments; no choice gives NoChoices, no call gives NoCalls, an unregistered name gives UnknownFunction |
| Llm.Resolver.ResolveByTool | llm/resolver.go:54-98 | the branch-by-branch method returns exactly the tool strategy's outcome (`ToolResolution`) for the definitions in registration order |
| Llm.Resolver.Resolve | llm/resolver.go:46-51 | with a tool client, the tool strategy on the definitions in registration order, whose call always names a registered function; otherwise the prompt strategy, which sends an empty system prompt and parses the first choice |
| Llm.Resolver.ResolutionIsRaw | llm/resolver.go:82-95 | every call either strategy produces carries raw parameters only; for the tool strategy this follows from the construction on lines 82-95, for the prompt strategy from lines 141-149 |
| Llm.PromptStrategySendsEmptyPrompt | llm/resolver.go:110-113 | without a tool client the system prompt is empty |
| Llm.WordEnd | llm/resolver.go:23 | greedy `\w+`: the end of the longest run of word characters from `p` |
| Llm.LastClose | llm/resolver.go:23 | greedy `.*\)`: the last `)` reachable from `from` without crossing a newline, or none if there is no such `)` |
| Llm.MatchAt | llm/resolver.go:23 | a match at `p` exists iff the pattern occurs there, and the one returned takes the last possible `)` |
| Llm.FindSpan | llm/resolver.go:128 | `FindStringSubmatch`: the leftmost occurrence of `word(...)` on one line, with the greedy closing parenthesis; none iff the pattern occurs nowhere |
| Llm.ParseFuncStr | llm/resolver.go:127-150 | the copy loop returns exactly the call that `FuncStrCall` describes |
| Llm.FuncStrRejected | llm/resolver.go:128-131 | the calling string is refused with InvalidFuncStr iff no `word(...)` occurs in it on one line |
| Llm.FuncStrAccepted | llm/resolver.go:132-149 | on success the name is the leftmost whole word followed by `(`, the parameters are raw, and they are the elements of the bracketed text up to the last `)` of that line |
| Llm.EmptyArgumentList | llm/resolver.go:134-143 | `name()` yields no raw parameters |
| Llm.LeftmostCallExample | llm/resolver.go:128-149 | in `a b(1)` the call is `b` with the single fragment `1`: an earlier word not followed by `(` is skipped |
| Nlcall.BuildRegisterOpts | agent.go:104-110 | the options are applied one by one, in order, to the zero value |
| Nlcall.LastLoadWins | agent.go:86-110 | the load directory is the one set by the last WithLoadDefDir, or empty if there is none |
| Nlcall.LastSaveWins | agent.go:92-110 | the save directory is the one set by the last WithSaveDefDir, or empty if there is none |
| Nlcall.LastOverwriteWins | agent.go:98-110 | the overwrite flag is the one set by the last WithOverwrite, or false if there is none |
| Nlcall.Agent.constructor | agent.go:20-26 | an empty registry over the given resolver |
| Nlcall.Agent.GetFunc | agent.go:150-157 | the stored function for a registered name; FunctionNotExist for any other name |
| Nlcall.Agent.RegisterFunc | agent.go:64-76 | a duplicate name gives FunctionExists and changes nothing; otherwise the function is stored, its name appended, and it is handed to the resolver; if the resolver refuses, the error is ResolverAddFailed and the agent's update is not rolled back |
| Nlcall.Agent.RegisterFn | agent.go:115-147 | with a load directory, the definer is used only when the file does not exist, and any other load error is returned; without one, the definer is used; the function is created with no ignored slots; a failed load or definer, an arity error or a duplicate changes neither the agent (map and key list) nor the resolver; otherwise the fresh function is stored under its name and its name appended, the resolver gains it unless it already had the name (then ResolverAddFailed, resolver unchanged), and a save error is returned after the function has been registered |
| Nlcall.Agent.Assigned | agent.go:33-40 | an assignment succeeds exactly when the resolution succeeded and names a registered function; the function assigned is the one stored under that name, well formed and carrying that name |
| Nlcall.Agent.AssignFunc | agent.go:29-42 | the empty input gives EmptyUserInput before the resolver is consulted; otherwise the function named by the resolved call; the returned raw parameters are always nil |
| Nlcall.Agent.AssignCallable | agent.go:44-61 | the empty input gives EmptyUserInput; then resolution and lookup errors; otherwise the binding's error or a fresh closure over the bound vector |
| Example.Add | example/funcs.go:11-17 | the sum of the numbers with 64-bit wrap-around; 0 for no numbers |
| Example.AddExact | example/funcs.go:11-17 | when the true sum fits in 64 bits, `add` returns it exactly |
| Example.AddSplit | example/funcs.go:11-17 | the wrapped sum of a concatenation is the wrapped sum of the two parts' wrapped sums, so `add(xs..., ys...) == add(add(xs...), add(ys...))` |
| Example.Mul | example/funcs.go:50-56 | the product of the numbers with 64-bit wrap-around; 1 for no numbers |
| Example.ProductAppend | example/funcs.go:50-56 | the product of a concatenation is the product of the parts |
| Example.MulSplit | example/funcs.go:50-56 | the wrapped product of a concatenation is the wrapped product of the two parts' wrapped products, so `mul(xs..., ys...) == mul(mul(xs...), mul(ys...))` |
| Example.ProductZero | example/funcs.go:50-56 | a zero among the numbers makes the product zero |
| Example.Advance | example/funcs.go:38-41 | growing the window by a byte it does not contain keeps it repeat-free, keeps `m` equal to its bytes, and bounds by the new window's length every repeat-free window that ends at the new end |
| Example.Retreat | example/funcs.go:42-45 | when the next byte is already in the window, dropping the first byte keeps the window repeat-free and `m` equal to its bytes, and no window starting before the new start can be extended |
| Example.LengthOfLongestSubstring | example/funcs.go:28-48 | returns `len(s)` when `len(s) <= 1`; otherwise the length of some repeat-free substring that is at least as long as every repeat-free substring, hence between 0 and `len(s)` |

## Left out

- Reflection is omitted. The signature is data, and `json.Unmarshal` and the JSON array split are parameters. Decoding itself (RFC 8259) is not modelled.
- Function.Function.BuildParams: requires that a variadic value given in typed mode is a slice. This leaves out every other typed value in that slot. Go expands a typed array or string there through `Len` and `Index` without a panic. An empty map, an empty channel or a pointer to an empty array gives `Len() == 0`, so no variadic arguments are passed and nothing panics. Only a non-empty value of those kinds, or a kind `Len` rejects, panics. The same precondition is carried by GetCallable, Call and the Layout lemmas.
- Function.Callable.Invoke: Go panics on a count mismatch. The model returns that panic as the IgnoreCountMismatch error value.
- Function.Callable.Invoke: the callee is total. The panics of `reflect.Value.Call` (function/function.go:151) are not modelled. These are a typed-mode argument that does not fit its slot and a zero `reflect.Value` from a nil ignored value. A panic raised by the wrapped function itself is not modelled either. So Invoke and Function.Function.Call return the callee's results wherever the counts match.
- The `[]any` results of the wrapped function are modelled as a sequence of values. The conversion with `Interface()` is omitted.
- `GetFunctionDetails` (function/utils.go) is not part of this model. GetOrGenFuncInfo receives its result as a parameter.
- `Definition.String`, `GetIgnoreIdx` and `GetFn` are plain accessors or formatting and are omitted.
- Llm.Resolver.ResolveByTool: the building of the argument fragments (llm/resolver.go:73-95) is the abstract `ToolArgs`:
  - its order comes from ranging over the `FuncInfo` parameter map, so it is unspecified;
  - its call to `GetOrGenFuncInfo` caches `FuncInfo`, and the model does not record that cache effect.
- Network and language-model calls (`Complete`, `CompleteWithTool`, llm/definer.go, example/client.go) are omitted, and so is the `context.Context` argument.
- `loadDefFromDisk`, `saveDefToDisk` and `getFnName` (filesystem, `runtime.FuncForPC`) are replaced by their reported results. The overwrite flag only reaches them, so it has no effect inside the model.
- In agent.go the agent's resolver is an interface. The model uses the library's own resolver, the only implementation in the repository.
- Strings are sequences of characters. RE2 works on UTF-8 bytes, so invalid UTF-8 is not modelled.
- `greet`, `weather` and `no` (example/funcs.go) only format text with `fmt.Sprintf`, so they are omitted.
- `add` and `mul` fix Go's `int` at 64 bits, the platform word size of 64-bit targets. On 32-bit targets `int` is 32 bits and wraps at 2^32, which the model does not cover.
- Concurrency is omitted. The maps are unsynchronised, and nothing in the code runs concurrently.
- Nil pointers are omitted, such as a nil `*Params` passed to `Call`.
