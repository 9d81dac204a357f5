/**
 * The calls the package's own tests make: a function with an ignored
 * context slot, and a variadic function given one JSON array, bound and
 * invoked.
 */
module BindingCases {
  import opened Wrappers
  import opened Function

  /** `func(ctx context.Context, a, b int) int` with slot 0 ignored. */
  const AddLayout: Layout := Layout(Signature([NamedType("context.Context"), IntType, IntType], false), [0], "add")

  /** `func(nums ...int) int`. */
  const SumLayout: Layout := Layout(Signature([SliceType(IntType)], true), [], "addMulti")

  /**
   * The raw parameters "1" and "2" fill slots 1 and 2 and leave the ignored
   * slot 0 unwritten; the value given at call time then goes there.
   */
  lemma AddCase(parse: Parser, ctx: Value)
    requires parse(IntType, "1") == Some(Int(1)) && parse(IntType, "2") == Some(Int(2))
    ensures AddLayout.Valid() && AddLayout.VariadicReady(Params(None, ["1", "2"]), parse)
    ensures AddLayout.Bind(Params(None, ["1", "2"]), parse) == Success([Invalid, Int(1), Int(2)])
    ensures Fill([Invalid, Int(1), Int(2)], [0], [ctx]) == [ctx, Int(1), Int(2)]
  {
    var p := Params(None, ["1", "2"]);
    var L := AddLayout;
    assert CountBelow([0], 1) == 1 && CountBelow([0], 2) == 1;
    assert L.ExtIndex(1) == 0 && L.ExtIndex(2) == 1;
    assert L.Valid();
    assert L.Prefix(p, parse, 0) == Success([]);
    L.PrefixIgnored(p, parse, 0);
    assert [] + [Invalid] == [Invalid];
    assert L.Prefix(p, parse, 1) == Success([Invalid]);
    assert L.Coerce(p, parse, 1) == Success(Int(1));
    L.PrefixBound(p, parse, 1, Int(1));
    assert [Invalid] + [Int(1)] == [Invalid, Int(1)];
    assert L.Prefix(p, parse, 2) == Success([Invalid, Int(1)]);
    assert L.Coerce(p, parse, 2) == Success(Int(2));
    L.PrefixBound(p, parse, 2, Int(2));
    assert [Invalid, Int(1)] + [Int(2)] == [Invalid, Int(1), Int(2)];
    assert L.Prefix(p, parse, 3) == Success([Invalid, Int(1), Int(2)]);
    assert L.Bind(p, parse) == L.Prefix(p, parse, 3);
    assert Fill([Invalid, Int(1), Int(2)], [], []) == [Invalid, Int(1), Int(2)];
  }

  /**
   * The single raw parameter "[1,2,3]" is decoded with the slot's slice
   * type and expanded into three arguments.
   */
  lemma SumCase(parse: Parser)
    requires parse(SliceType(IntType), "[1,2,3]") == Some(List([Int(1), Int(2), Int(3)]))
    ensures SumLayout.Valid() && SumLayout.VariadicReady(Params(None, ["[1,2,3]"]), parse)
    ensures SumLayout.Bind(Params(None, ["[1,2,3]"]), parse) == Success([Int(1), Int(2), Int(3)])
  {
    var p := Params(None, ["[1,2,3]"]);
    var L := SumLayout;
    assert L.Valid();
    assert L.ExtIndex(0) == 0;
    assert L.Coerce(p, parse, 0) == Success(List([Int(1), Int(2), Int(3)]));
    assert L.Prefix(p, parse, 0) == Success([]);
    L.PrefixBound(p, parse, 0, List([Int(1), Int(2), Int(3)]));
    assert [] + [Int(1), Int(2), Int(3)] == [Int(1), Int(2), Int(3)];
  }

  /** A typed call with the wrong number of values is refused before any slot is bound. */
  lemma AddCountCase(parse: Parser)
    ensures AddLayout.Bind(Params(Some([Int(1)]), []), parse) == Failure(Errors.ParamCountMismatch("add"))
  {
    assert AddLayout.ExtArity() == 2;
  }

  /** The test's `func(ctx context.Context, a, b int) int { return a + b }`. */
  function AddCallee(args: seq<Value>): seq<Value> {
    if |args| == 3 && args[1].Int? && args[2].Int? then [Int(args[1].i + args[2].i)] else []
  }

  /** The sum of the integer values among `args`. */
  function IntSum(args: seq<Value>): int {
    if args == [] then 0
    else IntSum(args[..|args| - 1]) + (if args[|args| - 1].Int? then args[|args| - 1].i else 0)
  }

  /** The test's `func(nums ...int) int`, summing its arguments. */
  function SumCallee(args: seq<Value>): seq<Value> {
    [Int(IntSum(args))]
  }

  /** A parameter schema for definitions that have one. */
  const Schema: Value := Object(map["type" := Str("object")])

  /**
   * The first case of the creation test: `add` with slot 0 ignored, called
   * with the raw parameters "1" and "2" and a context, yields [3].
   */
  method AddCall(parse: Parser, ctx: Value) returns (r: Result<seq<Value>, Errors.Error>)
    requires parse(IntType, "1") == Some(Int(1)) && parse(IntType, "2") == Some(Int(2))
    ensures r == Success([Int(3)])
  {
    var def := Definition("add", "add two numbers", Some(Schema));
    var f := CreateFunction(AddCallee, AddLayout.sig, def, [0]);
    assert f.Success?;
    AscendingUnique(f.value.ignoreIdx, [0]);
    assert f.value.Binding() == AddLayout;
    AddCase(parse, ctx);
    r := f.value.Call(Params(None, ["1", "2"]), parse, [ctx]);
  }

  /**
   * The third case of the creation test: `addMulti` called with the single
   * raw parameter "[1,2,3]" yields [6].
   */
  method SumCall(parse: Parser) returns (r: Result<seq<Value>, Errors.Error>)
    requires parse(SliceType(IntType), "[1,2,3]") == Some(List([Int(1), Int(2), Int(3)]))
    ensures r == Success([Int(6)])
  {
    var def := Definition("addMulti", "add multiple numbers", Some(Schema));
    var f := CreateFunction(SumCallee, SumLayout.sig, def, []);
    assert f.Success?;
    AscendingUnique(f.value.ignoreIdx, []);
    assert f.value.Binding() == SumLayout;
    SumCase(parse);
    assert Fill([Int(1), Int(2), Int(3)], [], []) == [Int(1), Int(2), Int(3)];
    assert IntSum([Int(1), Int(2), Int(3)]) == 6 by {
      assert [Int(1), Int(2), Int(3)][..2] == [Int(1), Int(2)];
      assert [Int(1), Int(2)][..1] == [Int(1)];
      assert [Int(1)][..0] == [];
    }
    r := f.value.Call(Params(None, ["[1,2,3]"]), parse, []);
  }

  /** `func (s MyStruct) SayHello(name string) string`. */
  const HelloLayout: Layout := Layout(Signature([StringType], false), [], "sayHello")

  /** The test's `SayHello`: `fmt.Sprintf("Hello %s!", name)`. */
  function HelloCallee(args: seq<Value>): seq<Value> {
    if |args| == 1 && args[0].Str? then [Str("Hello " + args[0].s + "!")] else []
  }

  /**
   * The second case of the creation test: `sayHello` called with the raw
   * parameter `"world"` (a JSON string) yields ["Hello world!"].
   */
  method HelloCall(parse: Parser) returns (r: Result<seq<Value>, Errors.Error>)
    requires parse(StringType, "\"world\"") == Some(Str("world"))
    ensures r == Success([Str("Hello world!")])
  {
    var def := Definition("sayHello", "say hello", Some(Schema));
    var f := CreateFunction(HelloCallee, HelloLayout.sig, def, []);
    assert f.Success?;
    AscendingUnique(f.value.ignoreIdx, []);
    assert f.value.Binding() == HelloLayout;
    var p := Params(None, ["\"world\""]);
    assert HelloLayout.ExtIndex(0) == 0;
    assert HelloLayout.Prefix(p, parse, 0) == Success([]);
    HelloLayout.PrefixBound(p, parse, 0, Str("world"));
    assert [] + [Str("world")] == [Str("world")];
    assert HelloLayout.Bind(p, parse) == Success([Str("world")]);
    assert Fill([Str("world")], [], []) == [Str("world")];
    assert "Hello " + "world" + "!" == "Hello world!";
    r := f.value.Call(p, parse, []);
  }
}
