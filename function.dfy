/**
 * The invocation binder of package `function`: a registered Go function, the
 * normalisation of its "ignored" slot indices, the binding of supplied
 * parameters to positional slots, and the Callable closure that fills the
 * ignored slots at call time.
 *
 * Reflection is replaced by an explicit Signature, `json.Unmarshal` by an
 * abstract Parser, and the Go function value by an abstract callee from an
 * argument vector to a result vector.
 */
module Function {
  import opened Wrappers
  import opened Errors

  /** The declared type of one parameter slot (what `ft.In(i)` reports). */
  datatype SlotType =
    | IntType
    | FloatType
    | StringType
    | BoolType
    | SliceType(elem: SlotType)
    | MapType(elem: SlotType)
    | NamedType(name: string)  // structs and interfaces, e.g. context.Context

  /**
   * An argument or result value. `Invalid` is the zero `reflect.Value`, the
   * content of a slot that has not been written.
   */
  datatype Value =
    | Invalid
    | Int(i: int)
    | Str(s: string)
    | Bool(b: bool)
    | List(items: seq<Value>)
    | Object(fields: map<string, Value>)
    | Handle(id: nat)  // an opaque value such as a context.Context

  /** The signature of the wrapped function: one type per slot, and whether the last slot is variadic. */
  datatype Signature = Signature(slots: seq<SlotType>, variadic: bool) {
    /** Go only lets the last slot be variadic, and its type is then a slice. */
    predicate Valid() {
      variadic ==> |slots| > 0 && slots[|slots| - 1].SliceType?
    }
  }

  /** `json.Unmarshal` of a raw JSON fragment (RFC 8259, section 3) into a slot type; None is a decode error. */
  type Parser = (SlotType, string) -> Option<Value>

  /** The Go function being wrapped: argument vector to result vector. */
  type Callee = seq<Value> -> seq<Value>

  /** The calling information of a function; `parameters` is the JSON schema, None for Go's nil. */
  datatype Definition = Definition(name: string, description: string, parameters: Option<Value>)

  datatype ParamInfo = ParamInfo(name: string, index: nat)

  /** What source introspection reports about a function (its computation is not part of this model). */
  datatype FuncInfo = FuncInfo(name: string, comments: string, sourceCode: string, params: map<string, ParamInfo>)

  /**
   * The parameters of a call: typed values (Go's non-nil `Params`) or, when
   * `params` is None, raw JSON fragments.
   */
  datatype Params = Params(params: Option<seq<Value>>, rawParams: seq<string>) {
    /** Raw mode exactly when no typed slice was given; an empty typed slice is still typed mode. */
    predicate IsRaw(): (raw: bool)
      ensures raw <==> params.None?
      ensures params == Some([]) ==> !raw
    {
      params.None?
    }

    function Len(): (n: nat)
      ensures IsRaw() ==> n == |rawParams|
      ensures !IsRaw() ==> n == |params.value|
    {
      if params.Some? then |params.value| else |rawParams|
    }

    function GetRaw(i: nat): (raw: string)
      requires i < |rawParams|
      ensures raw == rawParams[i]
    {
      rawParams[i]
    }

    function Get(i: nat): (v: Value)
      requires params.Some? && i < |params.value|
      ensures v == params.value[i]
    {
      params.value[i]
    }
  }

  /** A call produced by a resolver: the target function's name and its parameters. */
  datatype Call = Call(name: string, params: Params)

  predicate StrictlyAscending(s: seq<int>) {
    forall a, b :: 0 <= a < b < |s| ==> s[a] < s[b]
  }

  predicate Sorted(s: seq<int>) {
    forall a, b :: 0 <= a < b < |s| ==> s[a] <= s[b]
  }

  predicate Distinct<T(==)>(s: seq<T>) {
    forall a, b :: 0 <= a < b < |s| ==> s[a] != s[b]
  }

  /** The number of leading elements of `ig` that lie below `i`; for an ascending `ig`, the ignored slots before slot `i`. */
  function CountBelow(ig: seq<nat>, i: nat): nat {
    if ig == [] || ig[0] >= i then 0 else 1 + CountBelow(ig[1..], i)
  }

  lemma {:induction false} CountBelowStep(ig: seq<nat>, i: nat)
    requires StrictlyAscending(ig)
    ensures CountBelow(ig, i + 1) == CountBelow(ig, i) + (if i in ig then 1 else 0)
  {
    if ig == [] {
    } else if ig[0] > i {
      assert forall k :: 0 <= k < |ig| ==> ig[k] >= ig[0];
    } else if ig[0] == i {
      assert ig[1..] == [] || ig[1..][0] > i;
    } else {
      CountBelowStep(ig[1..], i);
      assert i in ig <==> i in ig[1..];
    }
  }

  lemma {:induction false} CountBelowAll(ig: seq<nat>, n: nat)
    requires forall k :: 0 <= k < |ig| ==> ig[k] < n
    ensures CountBelow(ig, n) == |ig|
  {
    if ig != [] {
      CountBelowAll(ig[1..], n);
    }
  }

  lemma {:induction false} CountBelowAtMost(ig: seq<nat>, i: nat)
    requires StrictlyAscending(ig)
    ensures CountBelow(ig, i) <= i
  {
    if i > 0 {
      CountBelowAtMost(ig, i - 1);
      CountBelowStep(ig, i - 1);
    } else {
      assert CountBelow(ig, 0) == 0;
    }
  }

  /**
   * What the binder needs of a function: its signature, its normalised
   * ignored slots and its name (for error messages).
   */
  datatype Layout = Layout(sig: Signature, ignoreIdx: seq<nat>, fnName: string) {

    predicate Valid() {
      && sig.Valid()
      && StrictlyAscending(ignoreIdx)
      && forall k :: 0 <= k < |ignoreIdx| ==> ignoreIdx[k] < |sig.slots|
    }

    function NumIn(): nat {
      |sig.slots|
    }

    /** The number of parameters a caller must supply (`fcN` in the source). */
    function ExtArity(): int {
      NumIn() - |ignoreIdx|
    }

    /** The cursor `j` when the slot walk reaches slot `i`. */
    function ExtIndex(i: nat): int {
      i - CountBelow(ignoreIdx, i)
    }

    /** True when the last slot is variadic and bound from a parameter, so it is expanded. */
    predicate ExpandsVariadic() {
      sig.variadic && NumIn() > 0 && (NumIn() - 1) !in ignoreIdx
    }

    lemma ExtIndexStep(i: nat)
      requires Valid()
      ensures ExtIndex(i + 1) == ExtIndex(i) + (if i in ignoreIdx then 0 else 1)
    {
      CountBelowStep(ignoreIdx, i);
    }

    lemma ExtIndexInRange(i: nat)
      requires Valid() && i < NumIn() && i !in ignoreIdx
      ensures 0 <= ExtIndex(i) < ExtArity()
    {
      CountBelowAtMost(ignoreIdx, i);
      CountBelowAll(ignoreIdx, NumIn());
      ExtIndexMonotone(i + 1, NumIn());
      ExtIndexStep(i);
    }

    lemma {:induction false} ExtIndexMonotone(a: nat, b: nat)
      requires Valid() && a <= b
      ensures ExtIndex(a) <= ExtIndex(b)
      decreases b - a
    {
      if a < b {
        ExtIndexStep(a);
        ExtIndexMonotone(a + 1, b);
      }
    }

    /** The value bound to the non-ignored slot `i`: the raw fragment decoded into the slot type, or the typed value. */
    function Coerce(p: Params, parse: Parser, i: nat): Result<Value, Error>
      requires i < NumIn() && 0 <= ExtIndex(i) < p.Len()
    {
      var j := ExtIndex(i);
      if p.IsRaw() then
        var raw := p.GetRaw(j);
        // `reflect.SliceOf(ft.In(i)).Elem()` is `ft.In(i)` again: the
        // variadic slot is decoded into its slice type, like any other slot.
        match parse(sig.slots[i], raw)
        case None => Failure(InvalidParameter(raw, fnName))
        case Some(v) => Success(v)
      else
        Success(p.Get(j))
    }

    /**
     * The value presented for an expanded variadic slot is a slice. Go panics
     * in `paramValue.Len()` otherwise; `json.Unmarshal` into a slice type
     * always gives one.
     */
    predicate VariadicReady(p: Params, parse: Parser) {
      ExpandsVariadic() && p.Len() == ExtArity() && 0 <= ExtIndex(NumIn() - 1) < p.Len() ==>
        match Coerce(p, parse, NumIn() - 1)
        case Success(v) => v.List?
        case Failure(_) => true
    }

    /** What slot `i` adds to the argument vector. */
    function Contribution(p: Params, parse: Parser, i: nat): Result<seq<Value>, Error>
      requires Valid() && i < NumIn() && p.Len() == ExtArity() && VariadicReady(p, parse)
    {
      if i in ignoreIdx then
        Success([Invalid])
      else
        ExtIndexInRange(i);
        match Coerce(p, parse, i)
        case Failure(e) => Failure(e)
        case Success(v) =>
          if sig.variadic && i == NumIn() - 1 then Success(v.items) else Success([v])
    }

    /** The argument vector for slots `0..k`, or the first slot's error. */
    function Prefix(p: Params, parse: Parser, k: nat): (r: Result<seq<Value>, Error>)
      requires Valid() && k <= NumIn() && p.Len() == ExtArity() && VariadicReady(p, parse)
      ensures r.Success? && (k < NumIn() || !ExpandsVariadic()) ==> |r.value| == k
    {
      if k == 0 then
        Success([])
      else
        match Prefix(p, parse, k - 1)
        case Failure(e) => Failure(e)
        case Success(front) =>
          match Contribution(p, parse, k - 1)
          case Failure(e) => Failure(e)
          case Success(part) => Success(front + part)
    }

    /** The argument vector that binding `p` produces, with ignored slots left `Invalid`. */
    function Bind(p: Params, parse: Parser): Result<seq<Value>, Error>
      requires Valid() && VariadicReady(p, parse)
    {
      if p.Len() != ExtArity() then Failure(ParamCountMismatch(fnName))
      else Prefix(p, parse, NumIn())
    }

    lemma PrefixIgnored(p: Params, parse: Parser, i: nat)
      requires Valid() && i < NumIn() && p.Len() == ExtArity() && VariadicReady(p, parse)
      requires Prefix(p, parse, i).Success? && i in ignoreIdx
      ensures Prefix(p, parse, i + 1) == Success(Prefix(p, parse, i).value + [Invalid])
    {
    }

    lemma PrefixBound(p: Params, parse: Parser, i: nat, v: Value)
      requires Valid() && i < NumIn() && p.Len() == ExtArity() && VariadicReady(p, parse)
      requires Prefix(p, parse, i).Success? && i !in ignoreIdx
      requires 0 <= ExtIndex(i) < p.Len() && Coerce(p, parse, i) == Success(v)
      ensures sig.variadic && i == NumIn() - 1 ==>
        v.List? && Prefix(p, parse, i + 1) == Success(Prefix(p, parse, i).value + v.items)
      ensures !(sig.variadic && i == NumIn() - 1) ==>
        Prefix(p, parse, i + 1) == Success(Prefix(p, parse, i).value + [v])
    {
    }

    lemma PrefixRejected(p: Params, parse: Parser, i: nat)
      requires Valid() && i < NumIn() && p.Len() == ExtArity() && VariadicReady(p, parse)
      requires Prefix(p, parse, i).Success? && i !in ignoreIdx
      requires 0 <= ExtIndex(i) < p.Len() && Coerce(p, parse, i).Failure?
      ensures Bind(p, parse) == Failure(Coerce(p, parse, i).error)
    {
      assert Prefix(p, parse, i + 1) == Failure(Coerce(p, parse, i).error);
      PrefixStaysFailed(p, parse, i + 1, NumIn());
    }

    lemma {:induction false} PrefixStaysFailed(p: Params, parse: Parser, k: nat, m: nat)
      requires Valid() && k <= m <= NumIn() && p.Len() == ExtArity() && VariadicReady(p, parse)
      requires Prefix(p, parse, k).Failure?
      ensures Prefix(p, parse, m) == Prefix(p, parse, k)
      decreases m - k
    {
      if k < m {
        PrefixStaysFailed(p, parse, k + 1, m);
      }
    }

    /** Slot `i` holds the `Invalid` placeholder if it is ignored, and otherwise the value bound from its parameter. */
    predicate SlotBound(p: Params, parse: Parser, i: nat, v: Value) {
      if i in ignoreIdx then v == Invalid
      else i < NumIn() && 0 <= ExtIndex(i) < p.Len() && Coerce(p, parse, i) == Success(v)
    }

    /** Slot `i` is bound from a raw fragment that does not decode into the slot type. */
    predicate Rejects(p: Params, parse: Parser, i: nat) {
      && i < NumIn()
      && i !in ignoreIdx
      && p.IsRaw()
      && 0 <= ExtIndex(i) < |p.rawParams|
      && parse(sig.slots[i], p.rawParams[ExtIndex(i)]).None?
    }

    lemma {:induction false} PrefixOutcome(p: Params, parse: Parser, k: nat)
      requires Valid() && k <= NumIn() && p.Len() == ExtArity() && VariadicReady(p, parse)
      ensures Prefix(p, parse, k).Failure? <==> exists i :: 0 <= i < k && Rejects(p, parse, i)
      ensures Prefix(p, parse, k).Failure? ==>
        exists i :: 0 <= i < k && Rejects(p, parse, i) && (forall i' :: 0 <= i' < i ==> !Rejects(p, parse, i'))
          && Prefix(p, parse, k).error == InvalidParameter(p.rawParams[ExtIndex(i)], fnName)
    {
      if k > 0 {
        PrefixOutcome(p, parse, k - 1);
        var i := k - 1;
        if Prefix(p, parse, i).Success? {
          if i !in ignoreIdx {
            ExtIndexInRange(i);
            if Coerce(p, parse, i).Failure? {
              assert Rejects(p, parse, i);
            } else {
              assert !Rejects(p, parse, i);
            }
          }
        }
      }
    }

    lemma {:induction false} PrefixAt(p: Params, parse: Parser, k: nat, i: nat)
      requires Valid() && k <= NumIn() && p.Len() == ExtArity() && VariadicReady(p, parse)
      requires Prefix(p, parse, k).Success? && i < k
      requires i < NumIn() - 1 || !ExpandsVariadic()
      ensures i < |Prefix(p, parse, k).value|
      ensures SlotBound(p, parse, i, Prefix(p, parse, k).value[i])
    {
      if i < k - 1 {
        PrefixAt(p, parse, k - 1, i);
      } else if i !in ignoreIdx {
        ExtIndexInRange(i);
      }
    }

    /**
     * Binding fails with ParamCountMismatch exactly when the number of
     * supplied parameters differs from the number of non-ignored slots; typed
     * parameters of the right count always bind.
     */
    lemma BindCountCheck(p: Params, parse: Parser)
      requires Valid() && VariadicReady(p, parse)
      ensures (Bind(p, parse).Failure? && Bind(p, parse).error.ParamCountMismatch?) <==> p.Len() != ExtArity()
      ensures !p.IsRaw() && p.Len() == ExtArity() ==> Bind(p, parse).Success?
    {
      if p.Len() == ExtArity() {
        PrefixOutcome(p, parse, NumIn());
      }
    }

    /**
     * With the right count of raw fragments, binding fails exactly when some
     * bound fragment does not decode, and the error names the first such
     * fragment and the function.
     */
    lemma BindRawError(p: Params, parse: Parser)
      requires Valid() && VariadicReady(p, parse) && p.Len() == ExtArity()
      ensures Bind(p, parse).Failure? <==> exists i :: 0 <= i < NumIn() && Rejects(p, parse, i)
      ensures Bind(p, parse).Failure? ==>
        exists i :: 0 <= i < NumIn() && Rejects(p, parse, i) && (forall i' :: 0 <= i' < i ==> !Rejects(p, parse, i'))
          && Bind(p, parse).error == InvalidParameter(p.rawParams[ExtIndex(i)], fnName)
    {
      PrefixOutcome(p, parse, NumIn());
    }

    /** Each bound slot's raw fragment decodes to the typed value supplied for that slot. */
    predicate DecodesTo(raw: Params, typed: Params, parse: Parser)
      requires raw.IsRaw() && !typed.IsRaw()
    {
      forall i :: 0 <= i < NumIn() && i !in ignoreIdx ==>
        && 0 <= ExtIndex(i) < |raw.rawParams| && ExtIndex(i) < |typed.params.value|
        && parse(sig.slots[i], raw.rawParams[ExtIndex(i)]) == Some(typed.params.value[ExtIndex(i)])
    }

    lemma {:induction false} PrefixRawTyped(raw: Params, typed: Params, parse: Parser, k: nat)
      requires Valid() && k <= NumIn() && raw.IsRaw() && !typed.IsRaw()
      requires raw.Len() == ExtArity() && typed.Len() == ExtArity()
      requires VariadicReady(raw, parse) && VariadicReady(typed, parse) && DecodesTo(raw, typed, parse)
      ensures Prefix(raw, parse, k) == Prefix(typed, parse, k)
    {
      if k > 0 {
        PrefixRawTyped(raw, typed, parse, k - 1);
        if k - 1 !in ignoreIdx {
          ExtIndexInRange(k - 1);
          assert Coerce(raw, parse, k - 1) == Coerce(typed, parse, k - 1);
        }
      }
    }

    /**
     * Raw mode agrees with typed mode: when every bound fragment decodes to
     * the typed value given for its slot, binding the fragments gives exactly
     * what binding the typed values gives, vector or error.
     */
    lemma BindRawTyped(raw: Params, typed: Params, parse: Parser)
      requires Valid() && raw.IsRaw() && !typed.IsRaw() && raw.Len() == typed.Len()
      requires VariadicReady(raw, parse) && VariadicReady(typed, parse) && DecodesTo(raw, typed, parse)
      ensures Bind(raw, parse) == Bind(typed, parse)
    {
      if raw.Len() == ExtArity() {
        PrefixRawTyped(raw, typed, parse, NumIn());
      }
    }

    /**
     * A successful binding has one entry per slot, each ignored slot holding
     * the placeholder and each other slot its bound value; an expanded
     * variadic slot is replaced by the elements of its value, so the vector
     * has NumIn() - 1 + (number of elements) entries.
     */
    lemma BindShape(p: Params, parse: Parser)
      requires Valid() && VariadicReady(p, parse) && Bind(p, parse).Success?
      ensures !ExpandsVariadic() ==> |Bind(p, parse).value| == NumIn()
      ensures ExpandsVariadic() ==> |Bind(p, parse).value| >= NumIn() - 1
      ensures forall i :: 0 <= i < NumIn() && (i < NumIn() - 1 || !ExpandsVariadic()) ==>
        SlotBound(p, parse, i, Bind(p, parse).value[i])
      ensures ExpandsVariadic() ==>
        0 <= ExtIndex(NumIn() - 1) < p.Len()
        && Coerce(p, parse, NumIn() - 1) == Success(List(Bind(p, parse).value[NumIn() - 1..]))
    {
      var n := NumIn();
      var args := Bind(p, parse).value;
      forall i | 0 <= i < n && (i < n - 1 || !ExpandsVariadic())
        ensures SlotBound(p, parse, i, args[i])
      {
        PrefixAt(p, parse, n, i);
      }
      if ExpandsVariadic() {
        ExtIndexInRange(n - 1);
        var front := Prefix(p, parse, n - 1).value;
        assert args == front + Coerce(p, parse, n - 1).value.items;
        assert args[n - 1..] == Coerce(p, parse, n - 1).value.items;
      }
    }

    /** Parameter `e` is bound to some non-ignored slot. */
    ghost predicate Consumed(e: int) {
      exists i :: 0 <= i < NumIn() && i !in ignoreIdx && ExtIndex(i) == e
    }

    lemma {:induction false} ExtIndexOnto(e: int, k: nat)
      requires Valid() && k <= NumIn() && 0 <= e < ExtIndex(k)
      ensures exists i :: 0 <= i < k && i !in ignoreIdx && ExtIndex(i) == e
    {
      assert CountBelow(ignoreIdx, 0) == 0;
      ExtIndexStep(k - 1);
      if ExtIndex(k - 1) > e {
        ExtIndexOnto(e, k - 1);
      }
    }

    /**
     * The cursor `j` of the slot walk starts at 0, advances by one exactly on
     * the non-ignored slots and ends at ExtArity(): every supplied parameter
     * is bound to exactly one slot, in order.
     */
    lemma CursorConsumesEachParameterOnce()
      requires Valid()
      ensures ExtIndex(0) == 0 && ExtIndex(NumIn()) == ExtArity()
      ensures forall i :: 0 <= i < NumIn() ==> ExtIndex(i + 1) == ExtIndex(i) + (if i in ignoreIdx then 0 else 1)
      ensures forall a, b :: 0 <= a < b < NumIn() && a !in ignoreIdx ==> ExtIndex(a) < ExtIndex(b)
      ensures forall e :: 0 <= e < ExtArity() ==> Consumed(e)
    {
      assert CountBelow(ignoreIdx, 0) == 0;
      CountBelowAll(ignoreIdx, NumIn());
      forall i | 0 <= i < NumIn() ensures ExtIndex(i + 1) == ExtIndex(i) + (if i in ignoreIdx then 0 else 1) {
        ExtIndexStep(i);
      }
      forall a, b | 0 <= a < b < NumIn() && a !in ignoreIdx ensures ExtIndex(a) < ExtIndex(b) {
        ExtIndexStep(a);
        ExtIndexMonotone(a + 1, b);
      }
      forall e | 0 <= e < ExtArity() ensures Consumed(e) {
        ExtIndexOnto(e, NumIn());
      }
    }
  }

  /** `json.Unmarshal` into a slice type yields a slice whenever it succeeds. */
  ghost predicate SliceDecodesToList(parse: Parser) {
    forall t, raw :: parse(SliceType(t), raw).Some? ==> parse(SliceType(t), raw).value.List?
  }

  /** Raw parameters decoded by such a parser always leave the variadic slot expandable. */
  lemma RawParamsReady(layout: Layout, p: Params, parse: Parser)
    requires layout.Valid() && p.IsRaw() && SliceDecodesToList(parse)
    ensures layout.VariadicReady(p, parse)
  {
    var n := layout.NumIn();
    if layout.ExpandsVariadic() && p.Len() == layout.ExtArity() && 0 <= layout.ExtIndex(n - 1) < p.Len() {
      var t := layout.sig.slots[n - 1].elem;
      assert layout.sig.slots[n - 1] == SliceType(t);
      var raw := p.GetRaw(layout.ExtIndex(n - 1));
      assert parse(SliceType(t), raw).Some? ==> parse(SliceType(t), raw).value.List?;
    }
  }

  /** `n` unwritten slots. */
  function Blank(n: nat): (r: seq<Value>)
    ensures |r| == n && forall k :: 0 <= k < n ==> r[k] == Invalid
  {
    seq(n, _ => Invalid)
  }

  lemma BlankFirst(n: nat)
    requires n > 0
    ensures Blank(n) == [Invalid] + Blank(n - 1)
  {
  }

  /** Writing the first unwritten slot. */
  lemma WriteNext(front: seq<Value>, v: Value, n: nat)
    requires n > 0
    ensures (front + Blank(n))[|front| := v] == front + [v] + Blank(n - 1)
  {
    BlankFirst(n);
  }

  /** The argument vector after writing `vals[k]` into slot `idx[k]`, for k in ascending order. */
  function Fill(args: seq<Value>, idx: seq<nat>, vals: seq<Value>): (r: seq<Value>)
    requires |idx| == |vals| && forall k :: 0 <= k < |idx| ==> idx[k] < |args|
    ensures |r| == |args|
  {
    if idx == [] then args
    else Fill(args, idx[..|idx| - 1], vals[..|vals| - 1])[idx[|idx| - 1] := vals[|vals| - 1]]
  }

  /** Filling writes each value into its own slot and leaves every other slot as it was. */
  lemma {:induction false} FillAt(args: seq<Value>, idx: seq<nat>, vals: seq<Value>)
    requires |idx| == |vals| && forall k :: 0 <= k < |idx| ==> idx[k] < |args|
    requires Distinct(idx)
    ensures forall k :: 0 <= k < |idx| ==> Fill(args, idx, vals)[idx[k]] == vals[k]
    ensures forall q :: 0 <= q < |args| && q !in idx ==> Fill(args, idx, vals)[q] == args[q]
  {
    if idx != [] {
      var m := |idx| - 1;
      FillAt(args, idx[..m], vals[..m]);
      forall k | 0 <= k < m ensures idx[k] == idx[..m][k] && idx[k] != idx[m] {
      }
      forall q | 0 <= q < |args| && q !in idx ensures q !in idx[..m] {
      }
    }
  }

  lemma AscendingIsDistinct(s: seq<nat>)
    requires StrictlyAscending(s)
    ensures Distinct(s)
  {
  }

  lemma SameElementsSameLength(s: seq<int>, t: seq<int>)
    requires StrictlyAscending(s) && StrictlyAscending(t)
    requires forall x :: x in s <==> x in t
    ensures |s| == |t|
  {
    SetOfAscending(s);
    SetOfAscending(t);
    var S: set<int> := set x: int | x in s;
    var T: set<int> := set x: int | x in t;
    assert S == T;
  }

  lemma AscendingFirstIsLeast(s: seq<int>, x: int)
    requires StrictlyAscending(s) && x in s
    ensures s[0] <= x
  {
  }

  /** A strictly ascending sequence is determined by its element set. */
  lemma {:induction false} AscendingUnique(s: seq<int>, t: seq<int>)
    requires StrictlyAscending(s) && StrictlyAscending(t)
    requires forall x :: x in s <==> x in t
    ensures s == t
  {
    SameElementsSameLength(s, t);
    if s != [] {
      assert s[0] == t[0] by {
        assert s[0] in s && t[0] in t;
        AscendingFirstIsLeast(s, t[0]);
        AscendingFirstIsLeast(t, s[0]);
      }
      var s', t' := s[1..], t[1..];
      forall x ensures x in s' <==> x in t' {
        if x in s' {
          assert x in t && x != t[0];
        }
        if x in t' {
          assert x in s && x != s[0];
        }
      }
      AscendingUnique(s', t');
      assert s == [s[0]] + s' && t == [t[0]] + t';
    }
  }

  lemma {:induction false} DistinctCount(t: seq<int>, x: int)
    requires Distinct(t)
    ensures multiset(t)[x] <= 1
  {
    if t != [] {
      assert t == [t[0]] + t[1..];
      assert Distinct(t[1..]) by {
        forall a, b | 0 <= a < b < |t| - 1 ensures t[1..][a] != t[1..][b] {
          assert t[a + 1] != t[b + 1];
        }
      }
      DistinctCount(t[1..], x);
      if x == t[0] {
        assert x !in t[1..];
      }
    }
  }

  lemma RepeatedCount(s: seq<int>, a: nat, b: nat)
    requires a < b < |s| && s[a] == s[b]
    ensures multiset(s)[s[a]] >= 2
  {
    assert s == s[..a] + [s[a]] + s[a + 1..b] + [s[b]] + s[b + 1..];
  }

  /** Sorting a duplicate-free sequence gives the strictly ascending sequence with the same elements. */
  lemma SortedOfDistinct(s: seq<int>, t: seq<int>)
    requires Sorted(s) && multiset(s) == multiset(t) && Distinct(t)
    ensures StrictlyAscending(s)
    ensures forall x :: x in s <==> x in t
  {
    forall a, b | 0 <= a < b < |s| ensures s[a] < s[b] {
      if s[a] == s[b] {
        RepeatedCount(s, a, b);
        DistinctCount(t, s[a]);
      }
    }
    forall x ensures x in s <==> x in t {
      assert x in s <==> x in multiset(s);
      assert x in t <==> x in multiset(t);
    }
  }

  /** `sort.Ints`: sorts the slice in place (insertion sort here; the library's algorithm is not modelled). */
  method SortInts(a: array<int>)
    modifies a
    ensures Sorted(a[..])
    ensures multiset(a[..]) == old(multiset(a[..]))
  {
    var i := 0;
    while i < a.Length
      invariant 0 <= i <= a.Length
      invariant forall p, q :: 0 <= p < q < i ==> a[p] <= a[q]
      invariant multiset(a[..]) == old(multiset(a[..]))
    {
      var j := i;
      while j > 0 && a[j - 1] > a[j]
        invariant 0 <= j <= i
        invariant forall p, q :: 0 <= p < q <= i && q != j ==> a[p] <= a[q]
        invariant multiset(a[..]) == old(multiset(a[..]))
      {
        a[j - 1], a[j] := a[j], a[j - 1];
        j := j - 1;
      }
      i := i + 1;
    }
  }

  /**
   * The index checks and normalisation of CreateFunction: every index must
   * lie in [0, ftN); the first one that does not is reported. On success the
   * result is the strictly ascending sequence of the distinct indices.
   */
  method NormalizeIgnoreIdx(ftN: nat, ignoreIdx: seq<int>) returns (r: Result<seq<nat>, Error>)
    ensures r.Failure? <==> exists k :: 0 <= k < |ignoreIdx| && !(0 <= ignoreIdx[k] < ftN)
    ensures r.Failure? ==>
      exists k :: 0 <= k < |ignoreIdx| && !(0 <= ignoreIdx[k] < ftN)
        && (forall k' :: 0 <= k' < k ==> 0 <= ignoreIdx[k'] < ftN)
        && r.error == InvalidIgnoreIndex(ignoreIdx[k])
    ensures r.Success? ==> StrictlyAscending(r.value)
    ensures r.Success? ==> forall x :: x in r.value <==> x in ignoreIdx
    ensures r.Success? ==> forall k :: 0 <= k < |r.value| ==> r.value[k] < ftN
  {
    // igMap: the set of indices seen so far, all checked
    var igMap: set<int> := {};
    for k := 0 to |ignoreIdx|
      invariant forall k' :: 0 <= k' < k ==> 0 <= ignoreIdx[k'] < ftN
      invariant forall x :: x in igMap <==> x in ignoreIdx[..k]
    {
      var idx := ignoreIdx[k];
      if idx >= ftN || idx < 0 {
        return Failure(InvalidIgnoreIndex(idx));
      }
      igMap := igMap + {idx};
    }
    assert ignoreIdx[..|ignoreIdx|] == ignoreIdx;
    // the keys of igMap, in whatever order the map yields them
    var keys := CollectKeys(igMap);
    ghost var unsorted := keys[..];
    SortInts(keys);
    SortedOfDistinct(keys[..], unsorted);
    var sorted: seq<int> := keys[..];
    assert forall k :: 0 <= k < |sorted| ==> 0 <= sorted[k] < ftN by {
      forall k | 0 <= k < |sorted| ensures 0 <= sorted[k] < ftN {
        var x := sorted[k];
        assert x in sorted;
        assert x in unsorted;
        assert x in igMap;
        assert x in ignoreIdx;
        var k' :| 0 <= k' < |ignoreIdx| && ignoreIdx[k'] == x;
      }
    }
    r := Success(sorted);
  }

  /** Extensionality for the empty set, which lets Dafny pick an element of a non-empty set. */
  lemma NoMemberIsEmpty(s: set<int>)
    ensures (forall y :: y !in s) ==> s == {}
  {
    if forall y :: y !in s {
      assert s == {};
    }
  }

  /** The `for k := range igMap` loop: the keys of a set, each once, in an unspecified order. */
  method CollectKeys(igMap: set<int>) returns (keys: array<int>)
    ensures fresh(keys) && Distinct(keys[..])
    ensures forall x :: x in keys[..] <==> x in igMap
  {
    keys := new int[|igMap|];
    var n := 0;
    var rest := igMap;
    ghost var done: seq<int> := [];
    while rest != {}
      invariant rest <= igMap
      invariant n + |rest| == |igMap| == keys.Length
      invariant keys[..n] == done
      invariant forall p :: 0 <= p < n ==> done[p] in igMap && done[p] !in rest
      invariant forall x :: x in igMap ==> x in rest || x in done
      invariant Distinct(done)
      decreases |rest|
    {
      NoMemberIsEmpty(rest);
      var x: int :| x in rest;
      keys[n] := x;
      done := done + [x];
      n := n + 1;
      rest := rest - {x};
    }
    assert keys[..] == done;
  }

  /** The `ignoreIdxMap` loop of GetCallable: the set of ignored indices. */
  method IgnoreSet(ignoreIdx: seq<nat>) returns (m: set<nat>)
    ensures forall x :: x in m <==> x in ignoreIdx
  {
    m := {};
    for k := 0 to |ignoreIdx|
      invariant forall x :: x in m <==> x in ignoreIdx[..k]
    {
      m := m + {ignoreIdx[k]};
    }
    assert ignoreIdx[..|ignoreIdx|] == ignoreIdx;
  }

  /** A registered function: the Go function value, its definition and its normalised ignored slots. */
  class Function {
    const fn: Callee
    const sig: Signature
    const def: Definition
    const ignoreIdx: seq<nat>
    var fnInfo: Option<FuncInfo>

    /** The invariant CreateFunction establishes. */
    predicate Valid() {
      Binding().Valid() && (def.parameters.None? ==> Binding().ExtArity() == 0)
    }

    function Binding(): Layout {
      Layout(sig, ignoreIdx, def.name)
    }

    function GetName(): string {
      def.name
    }

    function GetDef(): Definition {
      def
    }

    constructor (fn: Callee, sig: Signature, def: Definition, ignoreIdx: seq<nat>)
      ensures this.fn == fn && this.sig == sig && this.def == def && this.ignoreIdx == ignoreIdx
      ensures fnInfo == None
    {
      this.fn := fn;
      this.sig := sig;
      this.def := def;
      this.ignoreIdx := ignoreIdx;
      fnInfo := None;
    }

    /**
     * The slot walk of GetCallable: `i` runs over all slots, `j` over the
     * supplied parameters and advances only on non-ignored slots.
     */
    method BuildParams(p: Params, parse: Parser) returns (r: Result<seq<Value>, Error>)
      requires Valid() && Binding().VariadicReady(p, parse)
      ensures r == Binding().Bind(p, parse)
    {
      var layout := Binding();
      var ignoreIdxMap := IgnoreSet(ignoreIdx);
      var ftN := |sig.slots|;
      var fcN := ftN - |ignoreIdx|;
      if p.Len() != fcN {
        return Failure(ParamCountMismatch(GetName()));
      }
      var params := Blank(ftN);
      var i, j := 0, 0;
      assert CountBelow(ignoreIdx, 0) == 0;
      while i < ftN
        invariant 0 <= i <= ftN
        invariant j == layout.ExtIndex(i)
        invariant layout.Prefix(p, parse, i).Success?
        invariant params == layout.Prefix(p, parse, i).value + Blank(ftN - i)
      {
        layout.ExtIndexStep(i);
        if i !in ignoreIdxMap {
          var step := BindSlot(p, parse, i, j, params);
          if step.Failure? {
            return step;
          }
          params := step.value;
          j := j + 1;
        } else {
          ghost var front := layout.Prefix(p, parse, i).value;
          layout.PrefixIgnored(p, parse, i);
          WriteNext(front, Invalid, ftN - i);
          assert params == front + [Invalid] + Blank(ftN - i - 1) by {
            BlankFirst(ftN - i);
          }
        }
        i := i + 1;
      }
      assert Blank(0) == [];
      assert params == layout.Prefix(p, parse, ftN).value;
      assert layout.Bind(p, parse) == layout.Prefix(p, parse, ftN);
      r := Success(params);
    }

    /** One non-ignored slot of the walk: decode or take parameter `j` and write (or, for the variadic slot, expand) it. */
    method BindSlot(p: Params, parse: Parser, i: nat, j: nat, params: seq<Value>) returns (r: Result<seq<Value>, Error>)
      requires Valid() && Binding().VariadicReady(p, parse)
      requires p.Len() == Binding().ExtArity() && i < |sig.slots| && i !in ignoreIdx
      requires j == Binding().ExtIndex(i) && Binding().Prefix(p, parse, i).Success?
      requires params == Binding().Prefix(p, parse, i).value + Blank(|sig.slots| - i)
      ensures r.Failure? ==> r == Binding().Bind(p, parse)
      ensures r.Success? ==> Binding().Prefix(p, parse, i + 1).Success?
      ensures r.Success? ==> r.value == Binding().Prefix(p, parse, i + 1).value + Blank(|sig.slots| - i - 1)
    {
      var layout := Binding();
      var ftN := |sig.slots|;
      ghost var front := layout.Prefix(p, parse, i).value;
      layout.ExtIndexInRange(i);
      BlankFirst(ftN - i);
      var paramValue: Value;
      if p.IsRaw() {
        var rawParam := p.GetRaw(j);
        // the variadic slot's type is already the slice type
        var paramType := sig.slots[i];
        var parsed := parse(paramType, rawParam);
        if parsed.None? {
          assert layout.Coerce(p, parse, i) == Failure(InvalidParameter(rawParam, GetName()));
          layout.PrefixRejected(p, parse, i);
          return Failure(InvalidParameter(rawParam, GetName()));
        }
        paramValue := parsed.value;
        assert layout.Coerce(p, parse, i) == Success(paramValue);
      } else {
        paramValue := p.Get(j);
        assert layout.Coerce(p, parse, i) == Success(paramValue);
      }
      layout.PrefixBound(p, parse, i, paramValue);
      var out := params;
      if i == ftN - 1 && sig.variadic {
        // the slot's placeholder gives way to the list's elements
        out := out[..|out| - 1];
        assert out == front;
        var k := 0;
        while k < |paramValue.items|
          invariant 0 <= k <= |paramValue.items|
          invariant out == front + paramValue.items[..k]
        {
          out := out + [paramValue.items[k]];
          k := k + 1;
        }
        assert paramValue.items[..k] == paramValue.items;
        assert Blank(0) == [];
      } else {
        WriteNext(front, paramValue, ftN - i);
        out := out[i := paramValue];
      }
      r := Success(out);
    }

    /** GetCallable: binds `p` and returns the closure over the argument vector. */
    method GetCallable(p: Params, parse: Parser) returns (r: Result<Callable, Error>)
      requires Valid() && Binding().VariadicReady(p, parse)
      ensures r.Failure? <==> Binding().Bind(p, parse).Failure?
      ensures r.Failure? ==> r.error == Binding().Bind(p, parse).error
      ensures r.Success? ==> fresh(r.value) && r.value.f == this && r.value.Valid()
      ensures r.Success? ==> r.value.params == Binding().Bind(p, parse).value
    {
      var params := BuildParams(p, parse);
      if params.Failure? {
        return Failure(params.error);
      }
      BindFitsIgnored(Binding(), p, parse);
      var c := new Callable(this, params.value);
      r := Success(c);
    }

    /**
     * Call: binds and invokes. A bind error is returned without invoking
     * anything; otherwise the result is exactly what the closure returns.
     */
    method Call(p: Params, parse: Parser, ignoreParams: seq<Value>) returns (r: Result<seq<Value>, Error>)
      requires Valid() && Binding().VariadicReady(p, parse)
      ensures r == CallResult(this, p, parse, ignoreParams)
    {
      var c := GetCallable(p, parse);
      if c.Failure? {
        return Failure(c.error);
      }
      r := c.value.Invoke(ignoreParams);
    }

    /**
     * GetOrGenFuncInfo: `details` stands for what source introspection would
     * report now. A cached record is returned as is; otherwise a success is
     * cached and a failure is returned without being cached.
     */
    method GetOrGenFuncInfo(details: Result<FuncInfo, Error>) returns (r: Result<FuncInfo, Error>)
      modifies this
      ensures old(fnInfo).Some? ==> r == Success(old(fnInfo).value) && fnInfo == old(fnInfo)
      ensures old(fnInfo).None? ==> r == details
      ensures old(fnInfo).None? ==> fnInfo == if details.Success? then Some(details.value) else None
    {
      if fnInfo.None? {
        if details.Failure? {
          return Failure(details.error);
        }
        fnInfo := Some(details.value);
      }
      r := Success(fnInfo.value);
    }
  }

  /** Every ignored slot is a position of the bound argument vector, so the closure can fill it. */
  lemma BindFitsIgnored(layout: Layout, p: Params, parse: Parser)
    requires layout.Valid() && layout.VariadicReady(p, parse) && layout.Bind(p, parse).Success?
    ensures forall k :: 0 <= k < |layout.ignoreIdx| ==> layout.ignoreIdx[k] < |layout.Bind(p, parse).value|
  {
    layout.BindShape(p, parse);
    if layout.ExpandsVariadic() {
      forall k | 0 <= k < |layout.ignoreIdx| ensures layout.ignoreIdx[k] < layout.NumIn() - 1 {
        assert layout.ignoreIdx[k] != layout.NumIn() - 1;
      }
    }
  }

  /** The outcome of Call: the bind error, the closure's panic, or the callee's results on the filled vector. */
  function CallResult(f: Function, p: Params, parse: Parser, ignoreParams: seq<Value>): Result<seq<Value>, Error>
    requires f.Valid() && f.Binding().VariadicReady(p, parse)
  {
    match f.Binding().Bind(p, parse)
    case Failure(e) => Failure(e)
    case Success(args) =>
      if |ignoreParams| != |f.ignoreIdx| then
        Failure(IgnoreCountMismatch(f.GetName(), |f.ignoreIdx|, |ignoreParams|))
      else
        BindFitsIgnored(f.Binding(), p, parse);
        Success(f.fn(Fill(args, f.ignoreIdx, ignoreParams)))
  }

  /**
   * The closure GetCallable returns: it captures the argument vector and, on
   * each invocation, writes the ignored values into the ignored slots.
   */
  class Callable {
    const f: Function
    var params: seq<Value>

    ghost predicate Valid()
      reads this
    {
      f.Valid() && forall k :: 0 <= k < |f.ignoreIdx| ==> f.ignoreIdx[k] < |params|
    }

    constructor (f: Function, params: seq<Value>)
      requires f.Valid() && forall k :: 0 <= k < |f.ignoreIdx| ==> f.ignoreIdx[k] < |params|
      ensures this.f == f && this.params == params && Valid()
    {
      this.f := f;
      this.params := params;
    }

    /**
     * Panics (IgnoreCountMismatch) unless exactly one value per ignored slot
     * is given; otherwise writes `ignoreParams[k]` into slot `ignoreIdx[k]`
     * and returns what the function returns on the filled vector.
     */
    method Invoke(ignoreParams: seq<Value>) returns (results: Result<seq<Value>, Error>)
      requires Valid()
      modifies this
      ensures Valid()
      ensures |ignoreParams| != |f.ignoreIdx| ==>
        results == Failure(IgnoreCountMismatch(f.GetName(), |f.ignoreIdx|, |ignoreParams|)) && params == old(params)
      ensures |ignoreParams| == |f.ignoreIdx| ==>
        params == Fill(old(params), f.ignoreIdx, ignoreParams) && results == Success(f.fn(params))
    {
      var ignoreIdx := f.ignoreIdx;
      if |ignoreIdx| != |ignoreParams| {
        return Failure(IgnoreCountMismatch(f.GetName(), |ignoreIdx|, |ignoreParams|));
      }
      for i := 0 to |ignoreIdx|
        invariant |params| == |old(params)|
        invariant params == Fill(old(params), ignoreIdx[..i], ignoreParams[..i])
      {
        assert ignoreIdx[..i + 1][..i] == ignoreIdx[..i];
        assert ignoreParams[..i + 1][..i] == ignoreParams[..i];
        params := params[ignoreIdx[i] := ignoreParams[i]];
      }
      assert ignoreIdx[..|ignoreIdx|] == ignoreIdx;
      assert ignoreParams[..|ignoreParams|] == ignoreParams;
      results := Success(f.fn(params));
    }
  }

  /**
   * CreateFunction: normalises the ignored indices, and refuses a function
   * whose definition has no parameter schema while it still takes supplied
   * parameters. No other count check is made.
   */
  method CreateFunction(fn: Callee, sig: Signature, def: Definition, ignoreIdx: seq<int>) returns (r: Result<Function, Error>)
    requires sig.Valid()
    ensures r.Failure? <==>
      (exists k :: 0 <= k < |ignoreIdx| && !(0 <= ignoreIdx[k] < |sig.slots|))
      || (def.parameters.None? && |sig.slots| - |set x | x in ignoreIdx| != 0)
    ensures r.Success? ==> fresh(r.value) && r.value.Valid() && r.value.fnInfo.None?
    ensures r.Success? ==> r.value.fn == fn && r.value.sig == sig && r.value.def == def
    ensures r.Success? ==> StrictlyAscending(r.value.ignoreIdx)
    ensures r.Success? ==> forall x :: x in r.value.ignoreIdx <==> x in ignoreIdx
    ensures r.Success? ==> |r.value.ignoreIdx| == |set x | x in ignoreIdx|
    ensures (exists k :: 0 <= k < |ignoreIdx| && !(0 <= ignoreIdx[k] < |sig.slots|)) ==>
      exists k :: 0 <= k < |ignoreIdx| && !(0 <= ignoreIdx[k] < |sig.slots|)
        && (forall k' :: 0 <= k' < k ==> 0 <= ignoreIdx[k'] < |sig.slots|)
        && r == Failure(InvalidIgnoreIndex(ignoreIdx[k]))
    ensures r.Failure? && (forall k :: 0 <= k < |ignoreIdx| ==> 0 <= ignoreIdx[k] < |sig.slots|) ==>
      r.error == ArityMismatch(def.name, |set x | x in ignoreIdx|)
  {
    var idx := NormalizeIgnoreIdx(|sig.slots|, ignoreIdx);
    if idx.Failure? {
      return Failure(idx.error);
    }
    var newIgnoreIdx := idx.value;
    DistinctCardinality(newIgnoreIdx, ignoreIdx);
    var fcN := |sig.slots| - |newIgnoreIdx|;
    if def.parameters.None? && fcN != 0 {
      return Failure(ArityMismatch(def.name, |newIgnoreIdx|));
    }
    var created := new Function(fn, sig, def, newIgnoreIdx);
    r := Success(created);
  }

  /** A duplicate-free sequence has as many elements as its element set. */
  lemma {:induction false} DistinctCardinality(s: seq<nat>, t: seq<int>)
    requires StrictlyAscending(s) && forall x :: x in s <==> x in t
    ensures |s| == |set x | x in t|
  {
    var S: set<int> := set x: int | x in s;
    var T: set<int> := set x: int | x in t;
    assert forall x :: x in S <==> x in T;
    assert S == T;
    SetOfAscending(s);
  }

  lemma {:induction false} SetOfAscending(s: seq<int>)
    requires StrictlyAscending(s)
    ensures |set x: int | x in s| == |s|
  {
    if s != [] {
      var tail := s[1..];
      assert StrictlyAscending(tail);
      SetOfAscending(tail);
      var S: set<int> := set x: int | x in s;
      var T: set<int> := set x: int | x in tail;
      assert S == T + {s[0]};
      assert s[0] !in T;
    }
  }
}
