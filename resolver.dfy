/**
 * The resolver of package `llm`: a name-keyed registry of functions, the
 * system prompt it keeps for the prompt strategy, the parser of the calling
 * string a language model answers with, and the choice between the
 * tool-calling and the prompt strategy.
 *
 * The language model is a Client value fixed at construction; its answers
 * are functions of what it is sent. The JSON array split of RFC 8259,
 * section 5, is an abstract parameter.
 */
module Llm {
  import opened Wrappers
  import opened Errors
  import Function

  /** One tool call of a choice: the function's name and its arguments as a JSON object. */
  datatype ToolCall = ToolCall(name: string, args: string)

  /**
   * The completion client handed to NewResolver. `withTool` says whether it
   * also implements CompleteWithTool. `complete` is the plain completion:
   * (system message, user message) to the contents of the returned choices.
   * `completeWithTool` is CompleteWithTool: (user message, definitions) to
   * the tool calls of each returned choice.
   */
  datatype Client = Client(
    withTool: bool,
    complete: (string, string) -> Result<seq<string>, Error>,
    completeWithTool: (string, seq<Function.Definition>) -> Result<seq<seq<ToolCall>>, Error>)

  /**
   * The raw fragments resolveByTool builds for a tool call on the named
   * function: each parameter of the function's FuncInfo looked up in the
   * decoded arguments object and marshalled again. It fails when the info
   * cannot be generated, the arguments are not a JSON object or a value does
   * not marshal.
   */
  type ToolArgs = (string, string) -> Result<seq<string>, Error>

  /** Splitting `[...]` as a JSON array into its raw element fragments; None when it is not a JSON array. */
  type JsonSplit = string -> Option<seq<string>>

  /** The two halves of the system prompt template around its `%s`. */
  const PromptHead: string := "there are some functions defined below:\n'''\n"
  const PromptTail: string :=
    "\n'''\n\nYour task is to choose a suitable function and output a formated calling string: '''<func_name>(<arg1>,<arg2>,...)'''\n"
    + "output by the rules:\n1. output without any explanation.\n"
    + "2. there is no space between the arguments since you need to save the space.\n"
    + "3. parameters is null means you should not pass any arguments.\n"

  /** `strings.Join`. */
  function Join(elems: seq<string>, sep: string): string {
    if |elems| == 0 then ""
    else if |elems| == 1 then elems[0]
    else elems[0] + sep + Join(elems[1..], sep)
  }

  /**
   * `json.Marshal` of a `*function.Function`: the struct has no exported
   * field, so every function is rendered as an empty object.
   */
  function MarshalFunction(f: Function.Function): string {
    "{}"
  }

  /** The system prompt after a refresh, with `n` functions registered. */
  function SysPromptFor(n: nat): string {
    PromptHead + Join(seq(n, _ => "{}"), "\n") + PromptTail
  }

  lemma {:induction false} JoinLength(elems: seq<string>, sep: string, w: nat)
    requires |elems| > 0 && forall k :: 0 <= k < |elems| ==> |elems[k]| == w
    ensures |Join(elems, sep)| == |elems| * w + (|elems| - 1) * |sep|
  {
    if |elems| > 1 {
      JoinLength(elems[1..], sep, w);
    }
  }

  /** A refreshed prompt is the template with one "{}" line per registered function. */
  lemma SysPromptShape(n: nat)
    ensures SysPromptFor(n)[..|PromptHead|] == PromptHead
    ensures n > 0 ==> |SysPromptFor(n)| == |PromptHead| + 3 * n - 1 + |PromptTail|
    ensures n == 0 ==> SysPromptFor(n) == PromptHead + PromptTail
  {
    var body := seq(n, _ => "{}");
    if n > 0 {
      JoinLength(body, "\n", 2);
    } else {
      assert body == [];
    }
  }

  /** The definitions of `names`, looked up in `m`, in the order of `names`. */
  function DefsOf(names: seq<string>, m: map<string, Function.Function>): (defs: seq<Function.Definition>)
    requires forall k :: 0 <= k < |names| ==> names[k] in m
    ensures |defs| == |names|
    ensures forall k :: 0 <= k < |names| ==> defs[k] == m[names[k]].def
  {
    if names == [] then [] else DefsOf(names[..|names| - 1], m) + [m[names[|names| - 1]].def]
  }

  class Resolver {
    const client: Client
    /** Whether the client turned out to implement CompleteWithTool. */
    const toolClient: bool
    var sysPrompt: string
    var fnName2fn: map<string, Function.Function>
    var fnNames: seq<string>

    /**
     * Names are registered once each, every stored function is stored under
     * its own name, and the prompt is refreshed only with a tool client.
     */
    ghost predicate Valid()
      reads this
    {
      && toolClient == client.withTool
      && Function.Distinct(fnNames)
      && (forall n :: n in fnName2fn <==> n in fnNames)
      && (forall n :: n in fnName2fn ==> fnName2fn[n].GetName() == n)
      && sysPrompt == (if toolClient && |fnNames| > 0 then SysPromptFor(|fnNames|) else "")
    }

    /** NewResolver: an empty registry with an empty prompt. */
    constructor (client: Client)
      ensures this.client == client && toolClient == client.withTool
      ensures sysPrompt == "" && fnName2fn == map[] && fnNames == []
      ensures Valid()
    {
      this.client := client;
      toolClient := client.withTool;
      sysPrompt := "";
      fnName2fn := map[];
      fnNames := [];
    }

    /**
     * AddFunc: refuses a name already registered and changes nothing then;
     * otherwise stores the function under its name, appends the name and,
     * with a tool client only, refreshes the prompt.
     */
    method AddFunc(f: Function.Function) returns (ok: bool)
      requires Valid()
      modifies this
      ensures Valid()
      ensures ok <==> f.GetName() !in old(fnName2fn)
      ensures !ok ==> unchanged(this)
      ensures ok ==> fnName2fn == old(fnName2fn)[f.GetName() := f] && fnNames == old(fnNames) + [f.GetName()]
      ensures ok ==> sysPrompt == if toolClient then SysPromptFor(|fnNames|) else old(sysPrompt)
    {
      var fName := f.GetName();
      if fName in fnName2fn {
        return false;
      }
      fnName2fn := fnName2fn[fName := f];
      fnNames := fnNames + [fName];
      if toolClient {
        RefreshSysPrompt();
      }
      ok := true;
    }

    /** refreshSysPrompt: one marshalled entry per registered name, joined into the template. */
    method RefreshSysPrompt()
      requires forall k :: 0 <= k < |fnNames| ==> fnNames[k] in fnName2fn
      modifies this
      ensures sysPrompt == SysPromptFor(|fnNames|)
      ensures fnName2fn == old(fnName2fn) && fnNames == old(fnNames)
    {
      var funcDefs: seq<string> := [];
      for idx := 0 to |fnNames|
        invariant funcDefs == seq(idx, _ => "{}")
      {
        funcDefs := funcDefs + [MarshalFunction(fnName2fn[fnNames[idx]])];
      }
      sysPrompt := PromptHead + Join(funcDefs, "\n") + PromptTail;
    }

    /** GetFuncDefs: one definition per registered name, in registration order. */
    method GetFuncDefs() returns (defs: seq<Function.Definition>)
      requires Valid()
      ensures defs == DefsOf(fnNames, fnName2fn)
      ensures |defs| == |fnNames| && forall k :: 0 <= k < |defs| ==> defs[k].name == fnNames[k]
    {
      assert forall k :: 0 <= k < |fnNames| ==> fnNames[k] in fnName2fn;
      defs := [];
      for k := 0 to |fnNames|
        invariant defs == DefsOf(fnNames[..k], fnName2fn)
      {
        ghost var front := fnNames[..k + 1];
        assert front[..k] == fnNames[..k];
        assert DefsOf(front, fnName2fn) == DefsOf(fnNames[..k], fnName2fn) + [fnName2fn[fnNames[k]].def];
        defs := defs + [fnName2fn[fnNames[k]].GetDef()];
      }
      assert fnNames[..|fnNames|] == fnNames;
    }

    /**
     * resolveByTool: the first tool call of the first choice, which must name
     * a registered function; its arguments become raw parameters. This is the
     * imperative form of ToolResolution, whose contract says what it means.
     */
    method ResolveByTool(userInput: string, toolArgs: ToolArgs) returns (r: Result<Function.Call, Error>)
      requires Valid()
      ensures r == ToolResolution(client.completeWithTool(userInput, DefsOf(fnNames, fnName2fn)), fnName2fn.Keys, toolArgs)
    {
      var defs := GetFuncDefs();
      var choices := client.completeWithTool(userInput, defs);
      if choices.Failure? {
        return Failure(choices.error);
      }
      if |choices.value| < 1 {
        return Failure(NoChoices);
      }
      if |choices.value[0]| < 1 {
        return Failure(NoCalls);
      }
      var tc := choices.value[0][0];
      if tc.name !in fnName2fn {
        return Failure(UnknownFunction(tc.name));
      }
      var frags := toolArgs(tc.name, tc.args);
      if frags.Failure? {
        return Failure(frags.error);
      }
      r := Success(Function.Call(tc.name, Function.Params(None, frags.value)));
    }

    /**
     * Resolve: the tool strategy iff a tool client was detected; otherwise
     * the prompt strategy, which sends the (always empty) system prompt and
     * parses the first choice.
     */
    method Resolve(userInput: string, split: JsonSplit, toolArgs: ToolArgs) returns (r: Result<Function.Call, Error>)
      requires Valid()
      ensures toolClient ==> r == ToolResolution(client.completeWithTool(userInput, DefsOf(fnNames, fnName2fn)), fnName2fn.Keys, toolArgs)
      ensures !toolClient ==> r == PromptResolution(client.complete("", userInput), split)
      ensures toolClient && r.Success? ==> r.value.name in fnName2fn
      ensures r == Resolution(userInput, split, toolArgs)
    {
      if toolClient {
        r := ResolveByTool(userInput, toolArgs);
        return;
      }
      var funcStr := GetFuncStr(userInput);
      if funcStr.Failure? {
        return Failure(funcStr.error);
      }
      r := ParseFuncStr(funcStr.value, split);
    }

    /** What Resolve returns for `userInput` in the current state. */
    ghost function Resolution(userInput: string, split: JsonSplit, toolArgs: ToolArgs): Result<Function.Call, Error>
      requires Valid()
      reads this
    {
      if toolClient then ToolResolution(client.completeWithTool(userInput, DefsOf(fnNames, fnName2fn)), fnName2fn.Keys, toolArgs)
      else PromptResolution(client.complete("", userInput), split)
    }

    /** Both strategies produce raw parameters only. */
    lemma ResolutionIsRaw(userInput: string, split: JsonSplit, toolArgs: ToolArgs)
      requires Valid()
      ensures Resolution(userInput, split, toolArgs).Success? ==> Resolution(userInput, split, toolArgs).value.params.IsRaw()
    {
      if !toolClient {
        var choice := FirstChoice(client.complete("", userInput));
        if choice.Success? {
          FuncStrRaw(choice.value, split);
        }
      }
    }

    /** getFuncStr: the content of the first choice, or an error; the imperative form of FirstChoice. */
    method GetFuncStr(userInput: string) returns (r: Result<string, Error>)
      ensures r == FirstChoice(client.complete(sysPrompt, userInput))
      ensures Valid() && !toolClient ==> r == FirstChoice(client.complete("", userInput))
    {
      var choices := client.complete(sysPrompt, userInput);
      if choices.Failure? {
        return Failure(choices.error);
      }
      if |choices.value| < 1 {
        return Failure(NoChoices);
      }
      r := Success(choices.value[0]);
    }
  }

  /** The content of the first choice; the client's error, or NoChoices when it returned none. */
  function FirstChoice(choices: Result<seq<string>, Error>): (r: Result<string, Error>)
    ensures r.Success? <==> choices.Success? && |choices.value| > 0
    ensures r.Success? ==> r.value == choices.value[0]
    ensures choices.Failure? ==> r == Failure(choices.error)
    ensures choices.Success? && choices.value == [] ==> r == Failure(NoChoices)
  {
    match choices
    case Failure(e) => Failure(e)
    case Success(cs) => if |cs| < 1 then Failure(NoChoices) else Success(cs[0])
  }

  /**
   * The outcome of the tool strategy for what the model answered: the first
   * tool call of the first choice, if it names a function in `known`, with
   * the fragments `toolArgs` builds as raw parameters.
   */
  function ToolResolution(choices: Result<seq<seq<ToolCall>>, Error>, known: set<string>, toolArgs: ToolArgs): (r: Result<Function.Call, Error>)
    ensures r.Success? ==>
      && choices.Success? && |choices.value| > 0 && |choices.value[0]| > 0
      && r.value.name == choices.value[0][0].name && r.value.name in known
      && r.value.params.IsRaw()
      && toolArgs(r.value.name, choices.value[0][0].args) == Success(r.value.params.rawParams)
    ensures choices.Success? && choices.value == [] ==> r == Failure(NoChoices)
    ensures choices.Success? && |choices.value| > 0 && choices.value[0] == [] ==> r == Failure(NoCalls)
    ensures choices.Success? && |choices.value| > 0 && |choices.value[0]| > 0 && choices.value[0][0].name !in known ==>
      r == Failure(UnknownFunction(choices.value[0][0].name))
  {
    match choices
    case Failure(e) => Failure(e)
    case Success(cs) =>
      if |cs| < 1 then Failure(NoChoices)
      else if |cs[0]| < 1 then Failure(NoCalls)
      else if cs[0][0].name !in known then Failure(UnknownFunction(cs[0][0].name))
      else
        match toolArgs(cs[0][0].name, cs[0][0].args)
        case Failure(e) => Failure(e)
        case Success(frags) => Success(Function.Call(cs[0][0].name, Function.Params(None, frags)))
  }

  /** The outcome of the prompt strategy for what the model answered. */
  function PromptResolution(choices: Result<seq<string>, Error>, split: JsonSplit): Result<Function.Call, Error> {
    match FirstChoice(choices)
    case Failure(e) => Failure(e)
    case Success(funcStr) => FuncStrCall(funcStr, split)
  }

  /** The prompt strategy never sends a system prompt: with a plain client the prompt is never refreshed. */
  lemma PromptStrategySendsEmptyPrompt(r: Resolver)
    requires r.Valid() && !r.toolClient
    ensures r.sysPrompt == ""
  {
  }

  // ---------------------------------------------------------------------
  // The calling-string pattern `(\w+)\((.*)\)`
  // ---------------------------------------------------------------------

  /** `\w` in RE2: ASCII letters, digits and underscore. */
  predicate IsWordChar(c: char) {
    ('a' <= c <= 'z') || ('A' <= c <= 'Z') || ('0' <= c <= '9') || c == '_'
  }

  /**
   * An occurrence of the pattern: the word `s[p..q]`, `(` at `q`, `)` at `c`,
   * and no newline between them (RE2's `.` does not match one).
   */
  predicate CallAt(s: string, p: int, q: int, c: int) {
    && 0 <= p < q < c < |s|
    && (forall k :: p <= k < q ==> IsWordChar(s[k]))
    && s[q] == '('
    && s[c] == ')'
    && (forall k :: q < k < c ==> s[k] != '\n')
  }

  /** The positions of a match: the name is `s[p..q]`, the arguments `s[q+1..c]`. */
  datatype Span = Span(p: nat, q: nat, c: nat)

  /** The end of the longest run of word characters starting at `p`. */
  function WordEnd(s: string, p: nat): (e: nat)
    requires p <= |s|
    ensures p <= e <= |s|
    ensures forall k :: p <= k < e ==> IsWordChar(s[k])
    ensures e == |s| || !IsWordChar(s[e])
    decreases |s| - p
  {
    if p < |s| && IsWordChar(s[p]) then WordEnd(s, p + 1) else p
  }

  /** A `)` at `c` reachable from `from` without crossing a newline. */
  predicate CloseReachable(s: string, from: int, c: int) {
    0 <= from <= c < |s| && s[c] == ')' && forall k :: from <= k < c ==> s[k] != '\n'
  }

  /** The greedy `.*\)`: the last `)` before the first newline at or after `from`. */
  function LastClose(s: string, from: nat): (r: Option<nat>)
    requires from <= |s|
    ensures r.Some? ==> CloseReachable(s, from, r.value)
    ensures r.Some? ==> forall c :: CloseReachable(s, from, c) ==> c <= r.value
    ensures r.None? ==> forall c :: !CloseReachable(s, from, c)
    decreases |s| - from
  {
    if from == |s| || s[from] == '\n' then
      None
    else
      assert forall c :: CloseReachable(s, from, c) ==> c == from || CloseReachable(s, from + 1, c);
      match LastClose(s, from + 1)
      case Some(c) => Some(c)
      case None => if s[from] == ')' then Some(from) else None
  }

  /** An occurrence that starts after a '(' is an occurrence whose word is the whole run from `p`. */
  lemma CallAtWordEnd(s: string, p: nat, q: int, c: int)
    requires CallAt(s, p, q, c)
    ensures q == WordEnd(s, p) && CloseReachable(s, q + 1, c)
  {
  }

  /** The match starting exactly at `p`, with the greedy choice of `)`. */
  function MatchAt(s: string, p: nat): (r: Option<Span>)
    requires p <= |s|
    ensures r.Some? ==> r.value.p == p && CallAt(s, p, r.value.q, r.value.c)
    ensures r.Some? ==> forall c :: CallAt(s, p, r.value.q, c) ==> c <= r.value.c
    ensures r.None? ==> forall q, c :: !CallAt(s, p, q, c)
  {
    if p < |s| && IsWordChar(s[p]) then
      var q := WordEnd(s, p);
      if q < |s| && s[q] == '(' then
        match LastClose(s, q + 1)
        case Some(c) =>
          assert forall c' :: CallAt(s, p, q, c') ==> CloseReachable(s, q + 1, c');
          Some(Span(p, q, c))
        case None =>
          assert forall q', c' :: CallAt(s, p, q', c') ==> q' == q && CloseReachable(s, q + 1, c') by {
            forall q', c' | CallAt(s, p, q', c') ensures q' == q && CloseReachable(s, q + 1, c') {
              CallAtWordEnd(s, p, q', c');
            }
          }
          None
      else
        assert forall q', c' :: CallAt(s, p, q', c') ==> q' == q by {
          forall q', c' | CallAt(s, p, q', c') ensures q' == q {
            CallAtWordEnd(s, p, q', c');
          }
        }
        None
    else
      None
  }

  /**
   * `FindStringSubmatch` from position `from`: the leftmost occurrence and,
   * at that position, the last `)` on the line.
   */
  function FindSpan(s: string, from: nat): (r: Option<Span>)
    requires from <= |s|
    ensures r.Some? ==> from <= r.value.p && CallAt(s, r.value.p, r.value.q, r.value.c)
    ensures r.Some? ==> forall p, q, c :: from <= p < r.value.p ==> !CallAt(s, p, q, c)
    ensures r.Some? ==> forall c :: CallAt(s, r.value.p, r.value.q, c) ==> c <= r.value.c
    ensures r.None? ==> forall p, q, c :: from <= p ==> !CallAt(s, p, q, c)
    decreases |s| - from
  {
    if from == |s| then
      None
    else
      match MatchAt(s, from)
      case Some(sp) => Some(sp)
      case None => FindSpan(s, from + 1)
  }

  /** The call a calling string denotes, as parseFuncStr builds it. */
  function FuncStrCall(funcStr: string, split: JsonSplit): Result<Function.Call, Error> {
    match FindSpan(funcStr, 0)
    case None => Failure(InvalidFuncStr(funcStr))
    case Some(sp) =>
      var paramStr := funcStr[sp.q + 1..sp.c];
      match split("[" + paramStr + "]")
      case None => Failure(InvalidParameters(paramStr))
      case Some(ps) => Success(Function.Call(funcStr[sp.p..sp.q], Function.Params(None, ps)))
  }

  /**
   * parseFuncStr: finds `name(args)`, splits `[args]` as a JSON array and
   * returns the name with the fragments as raw parameters.
   */
  method ParseFuncStr(funcStr: string, split: JsonSplit) returns (r: Result<Function.Call, Error>)
    ensures r == FuncStrCall(funcStr, split)
  {
    var matches := FindSpan(funcStr, 0);
    if matches.None? {
      return Failure(InvalidFuncStr(funcStr));
    }
    var funcName := funcStr[matches.value.p..matches.value.q];
    var paramStr := funcStr[matches.value.q + 1..matches.value.c];
    var ps := split("[" + paramStr + "]");
    if ps.None? {
      return Failure(InvalidParameters(paramStr));
    }
    var rawParams: seq<string> := [];
    for k := 0 to |ps.value|
      invariant rawParams == ps.value[..k]
    {
      rawParams := rawParams + [ps.value[k]];
    }
    assert ps.value[..|ps.value|] == ps.value;
    r := Success(Function.Call(funcName, Function.Params(None, rawParams)));
  }

  lemma FuncStrRaw(funcStr: string, split: JsonSplit)
    ensures FuncStrCall(funcStr, split).Success? ==> FuncStrCall(funcStr, split).value.params.IsRaw()
  {
  }

  /** A calling string is refused exactly when no `word(...)` occurs in it on one line. */
  lemma FuncStrRejected(funcStr: string, split: JsonSplit)
    ensures FuncStrCall(funcStr, split) == Failure(InvalidFuncStr(funcStr)) <==>
      forall p, q, c :: !CallAt(funcStr, p, q, c)
  {
    var r := FindSpan(funcStr, 0);
    if r.Some? {
      assert CallAt(funcStr, r.value.p, r.value.q, r.value.c);
      assert FuncStrCall(funcStr, split) != Failure(InvalidFuncStr(funcStr));
    }
  }

  /**
   * On success the call is in raw mode, its name is the leftmost whole word
   * that is followed by `(`, and its fragments are the split of the
   * bracketed text up to the last `)` of that line.
   */
  lemma FuncStrAccepted(funcStr: string, split: JsonSplit)
    requires FuncStrCall(funcStr, split).Success?
    ensures exists p, q, c ::
      && CallAt(funcStr, p, q, c)
      && (forall p', q', c' :: p' < p ==> !CallAt(funcStr, p', q', c'))
      && (forall c' :: CallAt(funcStr, p, q, c') ==> c' <= c)
      && (p == 0 || !IsWordChar(funcStr[p - 1]))
      && FuncStrCall(funcStr, split).value.name == funcStr[p..q]
      && FuncStrCall(funcStr, split).value.params.IsRaw()
      && split("[" + funcStr[q + 1..c] + "]") == Some(FuncStrCall(funcStr, split).value.params.rawParams)
  {
    var sp := FindSpan(funcStr, 0).value;
    if sp.p > 0 && IsWordChar(funcStr[sp.p - 1]) {
      assert CallAt(funcStr, sp.p - 1, sp.q, sp.c);
      assert false;
    }
    assert CallAt(funcStr, sp.p, sp.q, sp.c);
  }

  /** `name()` has no fragments, given the JSON fact that `[]` is the empty array. */
  lemma EmptyArgumentList(name: string, split: JsonSplit)
    requires |name| > 0 && forall k :: 0 <= k < |name| ==> IsWordChar(name[k])
    requires split("[]") == Some([])
    ensures FuncStrCall(name + "()", split) == Success(Function.Call(name, Function.Params(None, [])))
  {
    var s := name + "()";
    var q, c := |name|, |name| + 1;
    assert CallAt(s, 0, q, c);
    var sp := FindSpan(s, 0).value;
    assert sp.p == 0;
    assert sp.q == q by {
      CallAtWordEnd(s, sp.p, sp.q, sp.c);
      CallAtWordEnd(s, 0, q, c);
    }
    assert sp.c == c;
    assert "[" + s[q + 1..c] + "]" == "[]";
    assert s[0..q] == name;
  }

  /** The leftmost word followed by `(` is taken, not an earlier word. */
  lemma LeftmostCallExample(split: JsonSplit)
    requires split("[1]") == Some(["1"])
    ensures FuncStrCall("a b(1)", split) == Success(Function.Call("b", Function.Params(None, ["1"])))
  {
    var s := "a b(1)";
    assert CallAt(s, 2, 3, 5);
    var sp := FindSpan(s, 0).value;
    assert sp.q == 3 by {
      assert forall k :: 0 <= k < |s| && s[k] == '(' ==> k == 3;
    }
    assert sp.p == 2 by {
      assert !IsWordChar(s[1]);
    }
    assert sp.c == 5;
    assert s[2..3] == "b";
    assert "[" + s[4..5] + "]" == "[1]";
  }
}
