/**
 * The injector generator of DefinitionInjectorGenerator (`generate` and
 * `dumpArguments`): emits the PHP source of a closure that builds and
 * configures the instance a service definition describes.
 *
 * `Plan` says, independently of any text, which statements the closure is
 * meant to run, in which order; `ParseInjector` reads emitted source back
 * into statements; `GenerateRoundTrip` ties them to `GenerateText`.
 */
module Injector {
  import opened Wrappers
  import opened PhpLiterals
  import opened Values
  import opened ClassTable

  // ---------------------------------------------------------------------
  // Service definitions

  datatype MethodCall = MethodCall(name: string, arguments: seq<Value>)

  datatype Property = Property(name: string, value: Value)

  /** The fields of a Symfony `Definition` that the generator reads. */
  datatype Definition = Definition(
    className: string,
    file: Option<string>,
    arguments: seq<Value>,
    methodCalls: seq<MethodCall>,
    properties: seq<Property>)

  // ---------------------------------------------------------------------
  // Emitting text

  const Opener := "<?php return function($container) {\n"
  const Closer := "\n    return $instance;\n};\n"
  const RequireOpen := "    require_once "
  const NewOpen := "    $instance = new \\"
  const InstanceArrow := "    $instance->"
  const ReflectionOpen := "    $refProperty = new \\ReflectionProperty("
  const SetAccessible := "    $refProperty->setAccessible(true);\n"
  const SetValueOpen := "    $refProperty->setValue($instance, "
  const LineEnd := ";\n"

  /**
   * The pieces `f` makes of `xs`, concatenated in order; the first piece
   * that fails decides the error.
   */
  function Concat<T>(xs: seq<T>, f: T -> Result<string, Error>): (r: Result<string, Error>)
    ensures r.Ok? <==> forall i :: 0 <= i < |xs| ==> f(xs[i]).Ok?
    ensures r.Err? ==> exists i :: 0 <= i < |xs| && f(xs[i]) == Err(r.error)
                         && forall j :: 0 <= j < i ==> f(xs[j]).Ok?
  {
    if xs == [] then Ok("")
    else
      var first :- f(xs[0]);
      var more :- Concat(xs[1..], f);
      assert forall i :: 1 <= i < |xs| ==> xs[1..][i - 1] == xs[i];
      Ok(first + more)
  }

  /** PHP treats `null`, `""` and `"0"` as false in `if ($file = $def->getFile())`. */
  predicate Truthy(file: Option<string>) {
    file.Some? && file.value != "" && file.value != "0"
  }

  function RequireText(file: Option<string>): string {
    if Truthy(file) then RequireOpen + Quote(file.value) + LineEnd else ""
  }

  /**
   * One argument as `dumpArguments` emits it.  `$first` is never assigned
   * before the loop, so `!$first` holds for every argument, and each one,
   * the first included, is preceded by `", "`.
   */
  function ArgumentText(a: Value): Result<string, Error> {
    var value :- Serialize(a);
    Ok(", " + value)
  }

  function ArgumentsText(args: seq<Value>): Result<string, Error> {
    var body :- Concat(args, ArgumentText);
    Ok("(" + body + ")")
  }

  function CallText(c: MethodCall): Result<string, Error> {
    var args :- ArgumentsText(c.arguments);
    Ok(InstanceArrow + c.name + args + LineEnd)
  }

  /**
   * One property assignment: direct when the declaring class makes it
   * public, otherwise through a `ReflectionProperty` of the declaring class.
   */
  function PropertyBlock(at: Resolved, name: string, value: string): string {
    if at.visibility == Public then
      InstanceArrow + name + " = " + value + LineEnd
    else
      ReflectionOpen + Quote(at.declaring) + ", " + Quote(name) + ");\n"
      + SetAccessible + SetValueOpen + value + ");\n"
  }

  function PropertyText(table: Table, className: string, p: Property): Result<string, Error>
    requires WellFormed(table) && className in table
  {
    var at :- Lookup(table, className, p.name);
    var value :- Serialize(p.value);
    Ok(PropertyBlock(at, p.name, value))
  }

  function PropertyPiece(table: Table, className: string): Property -> Result<string, Error>
    requires WellFormed(table) && className in table
  {
    p => PropertyText(table, className, p)
  }

  /** `generate($def)`: the whole closure, or the first error met while building it. */
  function GenerateText(table: Table, def: Definition): Result<string, Error>
    requires WellFormed(table)
  {
    var args :- ArgumentsText(def.arguments);
    var calls :- Concat(def.methodCalls, CallText);
    if def.className !in table then Err(MissingClass(def.className))
    else
      var props :- Concat(def.properties, PropertyPiece(table, def.className));
      Ok(Opener + RequireText(def.file) + NewOpen + def.className + args + LineEnd + calls + props + Closer)
  }

  /** Appending one item to a `Concat` adds its piece, or its error if the prefix succeeded. */
  lemma {:induction false} ConcatSnoc<T>(xs: seq<T>, x: T, f: T -> Result<string, Error>)
    ensures Concat(xs + [x], f) ==
      if Concat(xs, f).Err? then Concat(xs, f)
      else if f(x).Err? then Err(f(x).error)
      else Ok(Concat(xs, f).value + f(x).value)
  {
    if xs == [] {
      assert [] + [x] == [x];
      assert [x][1..] == [];
      if f(x).Ok? {
        assert f(x).value + "" == "" + f(x).value;
      }
    } else {
      assert (xs + [x])[0] == xs[0];
      assert (xs + [x])[1..] == xs[1..] + [x];
      ConcatSnoc(xs[1..], x, f);
      if f(xs[0]).Ok? && Concat(xs[1..], f).Ok? && f(x).Ok? {
        assert f(xs[0]).value + (Concat(xs[1..], f).value + f(x).value)
            == (f(xs[0]).value + Concat(xs[1..], f).value) + f(x).value;
      }
    }
  }

  /** One step of a loop that builds `Concat(xs, f)` from the left. */
  lemma ConcatStep<T>(xs: seq<T>, i: nat, f: T -> Result<string, Error>)
    requires i < |xs|
    ensures Concat(xs[..i + 1], f) ==
      if Concat(xs[..i], f).Err? then Concat(xs[..i], f)
      else if f(xs[i]).Err? then Err(f(xs[i]).error)
      else Ok(Concat(xs[..i], f).value + f(xs[i]).value)
  {
    assert xs[..i + 1] == xs[..i] + [xs[i]];
    ConcatSnoc(xs[..i], xs[i], f);
  }

  /** Once the prefix `xs[..i]` succeeds, the first failure at `xs[i]` is the error of the whole. */
  lemma ConcatFailsAt<T>(xs: seq<T>, i: nat, f: T -> Result<string, Error>)
    requires i < |xs| && Concat(xs[..i], f).Ok? && f(xs[i]).Err?
    ensures Concat(xs, f) == Err(f(xs[i]).error)
  {
    assert forall j :: 0 <= j < i ==> xs[..i][j] == xs[j];
    assert forall j :: 0 <= j < i ==> f(xs[j]).Ok?;
  }

  // ---------------------------------------------------------------------
  // The generator as the source writes it: appending to `$code` in loops

  /** `dumpArguments($arguments)`. */
  method DumpArguments(args: seq<Value>) returns (r: Result<string, Error>)
    ensures r == ArgumentsText(args)
  {
    var code := "(";
    // `$first` is read before it is ever assigned: PHP takes it as null, which is falsy,
    // so `!$first` holds and the separator is emitted before every argument.
    var first := false;
    var i := 0;
    while i < |args|
      invariant 0 <= i <= |args|
      invariant !first
      invariant Concat(args[..i], ArgumentText).Ok?
      invariant code == "(" + Concat(args[..i], ArgumentText).value
    {
      ConcatStep(args, i, ArgumentText);
      if !first {
        code := code + ", ";
      }
      first := false;
      var value := DumpValue(args[i]);
      if value.Err? {
        ConcatFailsAt(args, i, ArgumentText);
        return Err(value.error);
      }
      code := code + value.value;
      i := i + 1;
    }
    assert args[..i] == args;
    return Ok(code + ")");
  }

  /** The method-call lines of `generate`: line 44 for each call, in order. */
  method DumpCalls(calls: seq<MethodCall>) returns (r: Result<string, Error>)
    ensures r == Concat(calls, CallText)
  {
    var code := "";
    var i := 0;
    while i < |calls|
      invariant 0 <= i <= |calls|
      invariant Concat(calls[..i], CallText).Ok?
      invariant code == Concat(calls[..i], CallText).value
    {
      ConcatStep(calls, i, CallText);
      var call := calls[i];
      var callArgs := DumpArguments(call.arguments);
      if callArgs.Err? {
        ConcatFailsAt(calls, i, CallText);
        return Err(callArgs.error);
      }
      code := code + (InstanceArrow + call.name + callArgs.value + LineEnd);
      i := i + 1;
    }
    assert calls[..i] == calls;
    return Ok(code);
  }

  /** One step of a loop that builds `Concat(xs, f)`, when the next piece succeeds. */
  lemma ConcatOk<T>(xs: seq<T>, i: nat, f: T -> Result<string, Error>, piece: string)
    requires i < |xs| && Concat(xs[..i], f).Ok? && f(xs[i]) == Ok(piece)
    ensures Concat(xs[..i + 1], f) == Ok(Concat(xs[..i], f).value + piece)
  {
    ConcatStep(xs, i, f);
  }

  lemma PropertyPieceIs(table: Table, className: string, p: Property, at: Resolved, value: string)
    requires WellFormed(table) && className in table
    requires Lookup(table, className, p.name) == Ok(at) && Serialize(p.value) == Ok(value)
    ensures PropertyPiece(table, className)(p) == Ok(PropertyBlock(at, p.name, value))
  {
  }

  lemma PropertyPieceFails(table: Table, className: string, p: Property, e: Error)
    requires WellFormed(table) && className in table
    requires Lookup(table, className, p.name) == Err(e)
      || (Lookup(table, className, p.name).Ok? && Serialize(p.value) == Err(e))
    ensures PropertyPiece(table, className)(p) == Err(e)
  {
  }

  /** The property blocks of `generate`, in order, one per property. */
  method DumpProperties(table: Table, className: string, properties: seq<Property>) returns (r: Result<string, Error>)
    requires WellFormed(table) && className in table
    ensures r == Concat(properties, PropertyPiece(table, className))
  {
    ghost var piece := PropertyPiece(table, className);
    var code := "";
    var j := 0;
    while j < |properties|
      invariant 0 <= j <= |properties|
      invariant Concat(properties[..j], piece).Ok?
      invariant code == Concat(properties[..j], piece).value
    {
      var p := properties[j];
      var at := GetReflectionProperty(table, className, p.name);
      if at.Err? {
        PropertyPieceFails(table, className, p, at.error);
        ConcatFailsAt(properties, j, piece);
        return Err(at.error);
      }
      var text;
      if at.value.visibility == Public {
        var value := DumpValue(p.value);
        if value.Err? {
          PropertyPieceFails(table, className, p, value.error);
          ConcatFailsAt(properties, j, piece);
          return Err(value.error);
        }
        text := InstanceArrow + p.name + " = " + value.value + LineEnd;
        PropertyPieceIs(table, className, p, at.value, value.value);
      } else {
        text := ReflectionOpen + Quote(at.value.declaring) + ", " + Quote(p.name) + ");\n";
        text := text + SetAccessible;
        var value := DumpValue(p.value);
        if value.Err? {
          PropertyPieceFails(table, className, p, value.error);
          ConcatFailsAt(properties, j, piece);
          return Err(value.error);
        }
        text := text + SetValueOpen + value.value + ");\n";
        PropertyPieceIs(table, className, p, at.value, value.value);
      }
      ConcatOk(properties, j, piece, text);
      code := code + text;
      j := j + 1;
    }
    assert properties[..j] == properties;
    return Ok(code);
  }

  /** `GenerateText` on a definition whose sections all succeed. */
  lemma GenerateTextIs(table: Table, def: Definition, args: string, calls: string, props: string)
    requires WellFormed(table) && def.className in table
    requires ArgumentsText(def.arguments) == Ok(args)
    requires Concat(def.methodCalls, CallText) == Ok(calls)
    requires Concat(def.properties, PropertyPiece(table, def.className)) == Ok(props)
    ensures GenerateText(table, def)
      == Ok(Opener + RequireText(def.file) + (NewOpen + def.className + args + LineEnd) + calls + props + Closer)
  {
    Regroup(Opener + RequireText(def.file), NewOpen, def.className, args, LineEnd, calls, props, Closer);
  }

  lemma Regroup(a: string, b: string, c: string, d: string, e: string, f: string, g: string, h: string)
    ensures a + b + c + d + e + f + g + h == a + (b + c + d + e) + f + g + h
  {
  }

  /** `generate($def)`: appends section by section to `code`, stopping at the first error. */
  method Generate(table: Table, def: Definition) returns (r: Result<string, Error>)
    requires WellFormed(table)
    ensures r == GenerateText(table, def)
  {
    var code := Opener;
    if Truthy(def.file) {
      code := code + (RequireOpen + Quote(def.file.value) + LineEnd);
    }
    ghost var header := code;
    assert header == Opener + RequireText(def.file);
    var args := DumpArguments(def.arguments);
    if args.Err? {
      return Err(args.error);
    }
    code := code + (NewOpen + def.className + args.value + LineEnd);
    var calls := DumpCalls(def.methodCalls);
    if calls.Err? {
      return Err(calls.error);
    }
    code := code + calls.value;
    // `new \ReflectionClass($def->getClass())` throws for an unknown class.
    if def.className !in table {
      return Err(MissingClass(def.className));
    }
    var props := DumpProperties(table, def.className, def.properties);
    if props.Err? {
      return Err(props.error);
    }
    code := code + props.value;
    code := code + "\n    return $instance;\n";
    code := code + "};\n";
    GenerateTextIs(table, def, args.value, calls.value, props.value);
    Assemble(header, NewOpen + def.className + args.value + LineEnd, calls.value, props.value, code);
    return Ok(code);
  }

  lemma Assemble(header: string, construct: string, calls: string, props: string, code: string)
    requires code == header + construct + calls + props + "\n    return $instance;\n" + "};\n"
    ensures code == header + construct + calls + props + Closer
  {
  }

  /** No arguments give exactly `()`. */
  lemma NoArguments()
    ensures ArgumentsText([]) == Ok("()")
  {
    assert "(" + "" + ")" == "()";
  }

  /**
   * As written, a single argument is emitted behind a separator, `(, x)`,
   * because `$first` starts out false.
   */
  lemma SingleArgument(a: Value)
    requires Supported(a)
    ensures ArgumentsText([a]) == Ok("(, " + Serialize(a).value + ")")
  {
    ConcatSnoc([], a, ArgumentText);
    assert [] + [a] == [a];
    assert "(" + ("" + (", " + Serialize(a).value)) + ")" == "(, " + Serialize(a).value + ")";
  }

  /** One more argument inserts `", "` and its value before the closing parenthesis. */
  lemma MoreArguments(args: seq<Value>, a: Value)
    requires AllSupported(args) && Supported(a)
    ensures ArgumentsText(args).Ok? && ArgumentsText(args + [a]).Ok?
    ensures var s := ArgumentsText(args).value;
      ArgumentsText(args + [a]).value == s[..|s| - 1] + ", " + Serialize(a).value + ")"
  {
    ArgumentsOk(args);
    ConcatSnoc(args, a, ArgumentText);
    var body := Concat(args, ArgumentText).value;
    var s := ArgumentsText(args).value;
    assert s == "(" + body + ")";
    assert s[..|s| - 1] == "(" + body;
  }

  // ---------------------------------------------------------------------
  // What the emitted closure is meant to do

  /** The statements of an injector closure, as abstract syntax. */
  datatype Stmt =
    | Require(file: string)
    | Construct(className: string, arguments: seq<Expr>)
    | Call(name: string, arguments: seq<Expr>)
    | Assign(property: string, value: Expr)
    | ForceAssign(declaring: string, property: string, value: Expr)

  predicate AllSupported(vs: seq<Value>) {
    forall i :: 0 <= i < |vs| ==> Supported(vs[i])
  }

  predicate CallsSupported(calls: seq<MethodCall>) {
    forall i :: 0 <= i < |calls| ==> AllSupported(calls[i].arguments)
  }

  /** Every property is declared somewhere up the chain and has a supported value. */
  predicate PropertiesResolve(table: Table, className: string, properties: seq<Property>)
    requires WellFormed(table) && className in table
  {
    forall i :: 0 <= i < |properties| ==>
      Lookup(table, className, properties[i].name).Ok? && Supported(properties[i].value)
  }

  function Meanings(vs: seq<Value>): (es: seq<Expr>)
    requires AllSupported(vs)
    ensures |es| == |vs|
  {
    if vs == [] then [] else [Meaning(vs[0])] + Meanings(vs[1..])
  }

  function RequireStmts(file: Option<string>): seq<Stmt> {
    if Truthy(file) then [Require(file.value)] else []
  }

  function CallStmts(calls: seq<MethodCall>): (stmts: seq<Stmt>)
    requires CallsSupported(calls)
    ensures |stmts| == |calls|
    ensures forall i :: 0 <= i < |calls| ==>
      stmts[i] == Call(calls[i].name, Meanings(calls[i].arguments))
  {
    if calls == [] then []
    else
      assert forall i :: 1 <= i < |calls| ==> calls[1..][i - 1] == calls[i];
      [Call(calls[0].name, Meanings(calls[0].arguments))] + CallStmts(calls[1..])
  }

  /** A direct assignment when the declaring class makes the property public, a forced one otherwise. */
  function PropertyStmt(at: Resolved, name: string, value: Expr): Stmt {
    if at.visibility == Public then Assign(name, value) else ForceAssign(at.declaring, name, value)
  }

  function PropertyStmts(table: Table, className: string, properties: seq<Property>): (stmts: seq<Stmt>)
    requires WellFormed(table) && className in table
    requires PropertiesResolve(table, className, properties)
    ensures |stmts| == |properties|
    ensures forall i :: 0 <= i < |properties| ==>
      stmts[i] == PropertyStmt(Lookup(table, className, properties[i].name).value,
                               properties[i].name, Meaning(properties[i].value))
  {
    if properties == [] then []
    else
      var p := properties[0];
      assert forall i :: 1 <= i < |properties| ==> properties[1..][i - 1] == properties[i];
      [PropertyStmt(Lookup(table, className, p.name).value, p.name, Meaning(p.value))]
      + PropertyStmts(table, className, properties[1..])
  }

  /**
   * The closure a definition is meant to become: the optional `require_once`,
   * the construction, the method calls in order, then the property
   * assignments in order; nothing when any part of it cannot be emitted.
   */
  function Plan(table: Table, def: Definition): Option<seq<Stmt>>
    requires WellFormed(table)
  {
    if AllSupported(def.arguments) && CallsSupported(def.methodCalls) && def.className in table
       && PropertiesResolve(table, def.className, def.properties)
    then Some(RequireStmts(def.file) + [Construct(def.className, Meanings(def.arguments))]
              + CallStmts(def.methodCalls) + PropertyStmts(table, def.className, def.properties))
    else None
  }

  /**
   * The order of a plan: the `require_once` when the file is truthy, then the
   * construction, then one call per method call and one assignment per
   * property, each in the definition's own order.
   */
  lemma PlanOrder(table: Table, def: Definition)
    requires WellFormed(table) && Plan(table, def).Some?
    ensures var s := Plan(table, def).value; var h := if Truthy(def.file) then 1 else 0;
      && |s| == h + 1 + |def.methodCalls| + |def.properties|
      && (Truthy(def.file) ==> s[0] == Require(def.file.value))
      && s[h] == Construct(def.className, Meanings(def.arguments))
      && (forall i :: 0 <= i < |def.methodCalls| ==>
            s[h + 1 + i] == Call(def.methodCalls[i].name, Meanings(def.methodCalls[i].arguments)))
      && (forall i :: 0 <= i < |def.properties| ==>
            s[h + 1 + |def.methodCalls| + i]
            == PropertyStmt(Lookup(table, def.className, def.properties[i].name).value,
                            def.properties[i].name, Meaning(def.properties[i].value)))
  {
  }

  lemma ArgumentsOk(args: seq<Value>)
    ensures ArgumentsText(args).Ok? <==> AllSupported(args)
  {
    assert forall i :: 0 <= i < |args| ==> (ArgumentText(args[i]).Ok? <==> Supported(args[i]));
  }

  lemma CallsOk(calls: seq<MethodCall>)
    ensures Concat(calls, CallText).Ok? <==> CallsSupported(calls)
  {
    forall i | 0 <= i < |calls|
      ensures CallText(calls[i]).Ok? <==> AllSupported(calls[i].arguments)
    {
      ArgumentsOk(calls[i].arguments);
    }
  }

  lemma PropertiesOk(table: Table, className: string, properties: seq<Property>)
    requires WellFormed(table) && className in table
    ensures Concat(properties, PropertyPiece(table, className)).Ok?
            <==> PropertiesResolve(table, className, properties)
  {
    var piece := PropertyPiece(table, className);
    assert forall i :: 0 <= i < |properties| ==>
      (piece(properties[i]).Ok? <==>
       Lookup(table, className, properties[i].name).Ok? && Supported(properties[i].value));
  }

  /** Generation succeeds exactly when the definition has a plan. */
  lemma GenerateSucceedsIffPlanned(table: Table, def: Definition)
    requires WellFormed(table)
    ensures GenerateText(table, def).Ok? <==> Plan(table, def).Some?
  {
    ArgumentsOk(def.arguments);
    CallsOk(def.methodCalls);
    if def.className in table {
      PropertiesOk(table, def.className, def.properties);
    }
  }

  /** The unsupported value tagged `tag` sits in an argument, a method-call argument or a property value. */
  predicate OccursIn(def: Definition, tag: string) {
    (exists i :: 0 <= i < |def.arguments| && HasUnsupported(def.arguments[i], tag))
    || (exists i, k :: 0 <= i < |def.methodCalls| && 0 <= k < |def.methodCalls[i].arguments|
                       && HasUnsupported(def.methodCalls[i].arguments[k], tag))
    || (exists i :: 0 <= i < |def.properties| && HasUnsupported(def.properties[i].value, tag))
  }

  lemma ArgumentsErr(args: seq<Value>, e: Error)
    requires ArgumentsText(args) == Err(e)
    ensures e.UnsupportedValue?
    ensures exists i :: 0 <= i < |args| && HasUnsupported(args[i], e.typeTag)
  {
    var i :| 0 <= i < |args| && ArgumentText(args[i]) == Err(e);
    assert Serialize(args[i]) == Err(e);
  }

  lemma CallsErr(calls: seq<MethodCall>, e: Error)
    requires Concat(calls, CallText) == Err(e)
    ensures e.UnsupportedValue?
    ensures exists i, k :: 0 <= i < |calls| && 0 <= k < |calls[i].arguments|
                           && HasUnsupported(calls[i].arguments[k], e.typeTag)
  {
    var i :| 0 <= i < |calls| && CallText(calls[i]) == Err(e);
    ArgumentsErr(calls[i].arguments, e);
    var k :| 0 <= k < |calls[i].arguments| && HasUnsupported(calls[i].arguments[k], e.typeTag);
  }

  lemma PropertiesErr(table: Table, className: string, properties: seq<Property>, e: Error)
    requires WellFormed(table) && className in table
    requires Concat(properties, PropertyPiece(table, className)) == Err(e)
    ensures e.UnsupportedValue? || e.MissingProperty?
    ensures e.UnsupportedValue? ==>
      exists i :: 0 <= i < |properties| && HasUnsupported(properties[i].value, e.typeTag)
    ensures e.MissingProperty? ==>
      e.className == className &&
      exists i :: 0 <= i < |properties| && properties[i].name == e.property
                  && Lookup(table, className, properties[i].name).Err?
  {
    var i :| 0 <= i < |properties| && PropertyPiece(table, className)(properties[i]) == Err(e);
    PropertyPieceErr(table, className, properties[i], e);
  }

  lemma PropertyPieceErr(table: Table, className: string, p: Property, e: Error)
    requires WellFormed(table) && className in table
    requires PropertyPiece(table, className)(p) == Err(e)
    ensures if Lookup(table, className, p.name).Err? then e == MissingProperty(p.name, className)
            else Serialize(p.value) == Err(e)
  {
  }

  /**
   * Every failure of `generate` names its cause: an unsupported value
   * somewhere in the definition, the definition's own class missing, or a
   * property no class up its chain declares.
   */
  lemma GenerateErrors(table: Table, def: Definition)
    requires WellFormed(table) && GenerateText(table, def).Err?
    ensures var e := GenerateText(table, def).error;
      e.UnsupportedValue? || e.MissingClass? || e.MissingProperty?
    ensures var e := GenerateText(table, def).error;
      e.UnsupportedValue? ==> OccursIn(def, e.typeTag)
    ensures var e := GenerateText(table, def).error;
      e.MissingClass? ==> e.className == def.className && def.className !in table
                          && AllSupported(def.arguments) && CallsSupported(def.methodCalls)
    ensures var e := GenerateText(table, def).error;
      e.MissingProperty? ==>
        e.className == def.className && def.className in table
        && exists i :: 0 <= i < |def.properties| && def.properties[i].name == e.property
                       && Lookup(table, def.className, def.properties[i].name).Err?
  {
    var e := GenerateText(table, def).error;
    ArgumentsOk(def.arguments);
    CallsOk(def.methodCalls);
    if ArgumentsText(def.arguments).Err? {
      ArgumentsErr(def.arguments, e);
    } else if Concat(def.methodCalls, CallText).Err? {
      CallsErr(def.methodCalls, e);
    } else if def.className in table {
      PropertiesErr(table, def.className, def.properties, e);
    }
  }

  /** An unknown class fails generation once arguments and calls are emitted, with or without properties. */
  lemma MissingClassFails(table: Table, def: Definition)
    requires WellFormed(table) && def.className !in table
    requires AllSupported(def.arguments) && CallsSupported(def.methodCalls)
    ensures GenerateText(table, def) == Err(MissingClass(def.className))
  {
    ArgumentsOk(def.arguments);
    CallsOk(def.methodCalls);
  }

  // ---------------------------------------------------------------------
  // Reading an emitted closure back

  predicate IsNameChar(c: char) {
    'a' <= c <= 'z' || 'A' <= c <= 'Z' || '0' <= c <= '9' || c == '_'
  }

  /** Class names may also carry namespace separators. */
  predicate IsClassNameChar(c: char) {
    IsNameChar(c) || c == '\\'
  }

  predicate IsName(s: string) {
    |s| > 0 && forall i :: 0 <= i < |s| ==> IsNameChar(s[i])
  }

  predicate IsClassName(s: string) {
    |s| > 0 && forall i :: 0 <= i < |s| ==> IsClassNameChar(s[i])
  }

  /** The class, method and property names of `def` are plain ASCII identifiers. */
  predicate ReadableNames(def: Definition) {
    IsClassName(def.className)
    && (forall i :: 0 <= i < |def.methodCalls| ==> IsName(def.methodCalls[i].name))
    && (forall i :: 0 <= i < |def.properties| ==> IsName(def.properties[i].name))
  }

  function ParseName(t: string, p: char -> bool): (r: Option<(string, string)>)
    ensures r.Some? ==> |r.value.1| < |t|
  {
    var k := RunLength(t, p);
    if k == 0 then None else Some((t[..k], t[k..]))
  }

  /** Reads `, e, e)`: each argument behind its `", "`, then the closing parenthesis. */
  function ParseArgumentList(t: string): (r: Option<(seq<Expr>, string)>)
    ensures r.Some? ==> |r.value.1| < |t|
    decreases |t|
  {
    if StartsWith(t, ")") then Some(([], t[1..]))
    else
      var r1 :- Expect(", ", t);
      var e :- ParseExpr(r1);
      var more :- ParseArgumentList(e.1);
      Some(([e.0] + more.0, more.1))
  }

  function ParseArguments(t: string): (r: Option<(seq<Expr>, string)>)
    ensures r.Some? ==> |r.value.1| < |t|
  {
    var r1 :- Expect("(", t);
    ParseArgumentList(r1)
  }

  function ParseStatement(t: string): (r: Option<(Stmt, string)>)
    ensures r.Some? ==> |r.value.1| < |t|
  {
    if StartsWith(t, InstanceArrow) then ParseMember(t[|InstanceArrow|..])
    else if StartsWith(t, ReflectionOpen) then ParseForcedAssign(t[|ReflectionOpen|..])
    else None
  }

  /** What follows `$instance->`: a method call or a direct property assignment. */
  function ParseMember(u: string): (r: Option<(Stmt, string)>)
    ensures r.Some? ==> |r.value.1| < |u|
  {
    var name :- ParseName(u, IsNameChar);
    if StartsWith(name.1, "(") then
      var args :- ParseArguments(name.1);
      var rest :- Expect(LineEnd, args.1);
      Some((Call(name.0, args.0), rest))
    else
      var r1 :- Expect(" = ", name.1);
      var e :- ParseExpr(r1);
      var rest :- Expect(LineEnd, e.1);
      Some((Assign(name.0, e.0), rest))
  }

  const ForcedMiddle := ");\n" + SetAccessible + SetValueOpen

  /** What follows `$refProperty = new \ReflectionProperty(`: the three-line forced assignment. */
  function ParseForcedAssign(u: string): (r: Option<(Stmt, string)>)
    ensures r.Some? ==> |r.value.1| < |u|
  {
    var d :- ParseQuoted(u);
    var r1 :- Expect(", ", d.1);
    var p :- ParseQuoted(r1);
    var r2 :- Expect(ForcedMiddle, p.1);
    var e :- ParseExpr(r2);
    var rest :- Expect(");\n", e.1);
    Some((ForceAssign(d.0, p.0, e.0), rest))
  }

  /** Statements up to, and exactly including, the closing `return $instance;`. */
  function ParseStatements(t: string): Option<seq<Stmt>>
    decreases |t|
  {
    if t == Closer then Some([])
    else
      var s :- ParseStatement(t);
      var more :- ParseStatements(s.1);
      Some([s.0] + more)
  }

  function ParseHeader(t: string): Option<(seq<Stmt>, string)> {
    if StartsWith(t, RequireOpen) then
      var f :- ParseQuoted(t[|RequireOpen|..]);
      var rest :- Expect(LineEnd, f.1);
      Some(([Require(f.0)], rest))
    else Some(([], t))
  }

  function ParseConstruct(t: string): Option<(Stmt, string)> {
    var r1 :- Expect(NewOpen, t);
    var cls :- ParseName(r1, IsClassNameChar);
    var args :- ParseArguments(cls.1);
    var rest :- Expect(LineEnd, args.1);
    Some((Construct(cls.0, args.0), rest))
  }

  /** Reads a whole injector closure into its statements. */
  function ParseInjector(code: string): Option<seq<Stmt>> {
    var r1 :- Expect(Opener, code);
    var head :- ParseHeader(r1);
    var c :- ParseConstruct(head.1);
    var body :- ParseStatements(c.1);
    Some(head.0 + [c.0] + body)
  }

  lemma NameRoundTrip(s: string, rest: string, p: char -> bool)
    requires |s| > 0 && forall i :: 0 <= i < |s| ==> p(s[i])
    requires rest == [] || !p(rest[0])
    ensures ParseName(s + rest, p) == Some((s, rest))
  {
    RunLengthOf(s, rest, p);
    assert (s + rest)[..|s|] == s;
    assert (s + rest)[|s|..] == rest;
  }

  /** Every argument piece, and so every non-empty run of them, starts with the separator. */
  lemma ArgumentsStartWithComma(args: seq<Value>)
    requires Concat(args, ArgumentText).Ok?
    ensures var c := Concat(args, ArgumentText).value; c == [] || c[0] == ','
  {
  }

  lemma ArgumentStep(t: string, x: string, y: string, e: Expr, m: seq<Expr>, rest: string)
    requires t == ", " + (x + y)
    requires ParseExpr(x + y) == Some((e, y))
    requires ParseArgumentList(y) == Some((m, rest))
    ensures ParseArgumentList(t) == Some(([e] + m, rest))
  {
    NotStartsWith(t, ")", 0);
    ExpectPrefix(", ", x + y);
  }

  lemma EmptyArgumentList(t: string, rest: string)
    requires t == ")" + rest
    ensures ParseArgumentList(t) == Some(([], rest))
  {
    ExpectPrefix(")", rest);
  }

  lemma ConcatCons<T>(xs: seq<T>, f: T -> Result<string, Error>)
    requires xs != [] && Concat(xs, f).Ok?
    ensures f(xs[0]).Ok? && Concat(xs[1..], f).Ok?
    ensures Concat(xs, f).value == f(xs[0]).value + Concat(xs[1..], f).value
  {
  }

  lemma ArgumentTextIs(a: Value)
    requires Supported(a)
    ensures ArgumentText(a) == Ok(", " + Serialize(a).value)
  {
  }

  lemma ArgumentsTextIs(args: seq<Value>)
    requires Concat(args, ArgumentText).Ok?
    ensures ArgumentsText(args) == Ok("(" + Concat(args, ArgumentText).value + ")")
  {
  }

  lemma {:induction false} ArgumentListRoundTrip(args: seq<Value>, rest: string)
    requires AllSupported(args)
    ensures Concat(args, ArgumentText).Ok?
    ensures ParseArgumentList(Concat(args, ArgumentText).value + (")" + rest)) == Some((Meanings(args), rest))
  {
    ArgumentsOk(args);
    var all := Concat(args, ArgumentText).value;
    if args == [] {
      JoinEmpty(all, ")" + rest);
      EmptyArgumentList(all + (")" + rest), rest);
    } else {
      ConcatCons(args, ArgumentText);
      ArgumentTextIs(args[0]);
      var x := Serialize(args[0]).value;
      var c := Concat(args[1..], ArgumentText).value;
      var y := c + (")" + rest);
      ArgumentListRoundTrip(args[1..], rest);
      ArgumentsStartWithComma(args[1..]);
      SerializeRoundTrip(args[0], y);
      Regroup3(all, ", ", x, c, ")" + rest);
      ArgumentStep(all + (")" + rest), x, y, Meaning(args[0]), Meanings(args[1..]), rest);
    }
  }

  lemma JoinEmpty(a: string, b: string)
    requires a == []
    ensures a + b == b
  {
  }

  lemma Regroup3(all: string, a: string, b: string, c: string, d: string)
    requires all == a + b + c
    ensures all + d == a + (b + (c + d))
  {
  }

  lemma ArgumentsOpen(t: string, u: string)
    requires t == "(" + u
    ensures ParseArguments(t) == ParseArgumentList(u)
  {
    ExpectPrefix("(", u);
  }

  lemma ArgumentsSteps(t: string, body: string, rest: string, m: seq<Expr>)
    requires t == "(" + (body + (")" + rest))
    requires ParseArgumentList(body + (")" + rest)) == Some((m, rest))
    ensures ParseArguments(t) == Some((m, rest))
  {
    ArgumentsOpen(t, body + (")" + rest));
  }

  /** The argument list `dumpArguments` emits reads back as the arguments' meanings. */
  lemma ArgumentsRoundTrip(args: seq<Value>, rest: string)
    requires AllSupported(args)
    ensures ArgumentsText(args).Ok?
    ensures ParseArguments(ArgumentsText(args).value + rest) == Some((Meanings(args), rest))
  {
    ArgumentListRoundTrip(args, rest);
    ArgumentsTextIs(args);
    var body := Concat(args, ArgumentText).value;
    var a := ArgumentsText(args).value;
    Regroup3(a, "(", body, ")", rest);
    ArgumentsSteps(a + rest, body, rest, Meanings(args));
  }

  // Small facts about text, stated over abstract pieces so the solver never
  // has to look inside a long concrete string.

  lemma CharAt(t: string, a: string, b: string, k: nat)
    requires t == a + b && k < |a|
    ensures t[k] == a[k]
  {
  }

  lemma Regroup2(all: string, a: string, b: string, c: string)
    requires all == a + b
    ensures all + c == a + (b + c)
  {
  }

  lemma Regroup4(all: string, a: string, b: string, c: string, d: string, e: string)
    requires all == a + b + c + d
    ensures all + e == a + (b + (c + (d + e)))
  {
  }

  lemma Regroup5(all: string, a: string, b: string, c: string, d: string, e: string, f: string)
    requires all == a + b + c + d + e
    ensures all + f == a + (b + (c + (d + (e + f))))
  {
  }

  lemma RegroupForced(all: string, a: string, b: string, c: string, d: string, e: string,
                      f: string, g: string, h: string, i: string, rest: string)
    requires all == a + b + c + d + e + f + g + h + i
    ensures all + rest == a + (b + (c + (d + ((e + f + g) + (h + (i + rest))))))
  {
  }

  lemma StatementMember(t: string, u: string)
    requires t == InstanceArrow + u
    ensures ParseStatement(t) == ParseMember(u)
  {
    ExpectPrefix(InstanceArrow, u);
  }

  lemma StatementForced(t: string, u: string)
    requires t == ReflectionOpen + u
    ensures ParseStatement(t) == ParseForcedAssign(u)
  {
    CharAt(t, ReflectionOpen, u, 5);
    NotStartsWith(t, InstanceArrow, 5);
    ExpectPrefix(ReflectionOpen, u);
  }

  lemma MemberCallSteps(u: string, name: string, w: string, m: seq<Expr>, rest: string)
    requires u == name + w && IsName(name)
    requires |w| > 0 && w[0] == '('
    requires ParseArguments(w) == Some((m, LineEnd + rest))
    ensures ParseMember(u) == Some((Call(name, m), rest))
  {
    NameRoundTrip(name, w, IsNameChar);
    assert StartsWith(w, "(");
    ExpectPrefix(LineEnd, rest);
  }

  lemma MemberAssignSteps(u: string, name: string, x: string, e: Expr, rest: string)
    requires u == name + (" = " + (x + (LineEnd + rest))) && IsName(name)
    requires ParseExpr(x + (LineEnd + rest)) == Some((e, LineEnd + rest))
    ensures ParseMember(u) == Some((Assign(name, e), rest))
  {
    var w := " = " + (x + (LineEnd + rest));
    NameRoundTrip(name, w, IsNameChar);
    NotStartsWith(w, "(", 0);
    ExpectPrefix(" = ", x + (LineEnd + rest));
    ExpectPrefix(LineEnd, rest);
  }

  lemma ForcedSteps(u: string, d: string, name: string, x: string, e: Expr, rest: string)
    requires u == Quote(d) + (", " + (Quote(name) + (ForcedMiddle + (x + (");\n" + rest)))))
    requires ParseExpr(x + (");\n" + rest)) == Some((e, ");\n" + rest))
    ensures ParseForcedAssign(u) == Some((ForceAssign(d, name, e), rest))
  {
    var r2 := x + (");\n" + rest);
    var r1 := Quote(name) + (ForcedMiddle + r2);
    QuoteRoundTrip(d, ", " + r1);
    ExpectPrefix(", ", r1);
    QuoteRoundTrip(name, ForcedMiddle + r2);
    ExpectPrefix(ForcedMiddle, r2);
    ExpectPrefix(");\n", rest);
  }

  lemma CallTextIs(c: MethodCall)
    requires ArgumentsText(c.arguments).Ok?
    ensures CallText(c) == Ok(InstanceArrow + c.name + ArgumentsText(c.arguments).value + LineEnd)
  {
  }

  /** One emitted method-call line reads back as that call. */
  lemma CallRoundTrip(c: MethodCall, rest: string)
    requires IsName(c.name) && AllSupported(c.arguments)
    ensures CallText(c).Ok?
    ensures ParseStatement(CallText(c).value + rest) == Some((Call(c.name, Meanings(c.arguments)), rest))
  {
    ArgumentsRoundTrip(c.arguments, LineEnd + rest);
    ArgumentsTextIs(c.arguments);
    CallTextIs(c);
    var a := ArgumentsText(c.arguments).value;
    var all := CallText(c).value;
    var w := a + (LineEnd + rest);
    CharAt(a, "(" + Concat(c.arguments, ArgumentText).value, ")", 0);
    CharAt(w, a, LineEnd + rest, 0);
    Regroup4(all, InstanceArrow, c.name, a, LineEnd, rest);
    StatementMember(all + rest, c.name + w);
    MemberCallSteps(c.name + w, c.name, w, Meanings(c.arguments), rest);
  }

  /** One emitted property block reads back as the assignment it performs. */
  lemma PropertyBlockRoundTrip(at: Resolved, name: string, v: Value, rest: string)
    requires IsName(name) && Supported(v)
    ensures ParseStatement(PropertyBlock(at, name, Serialize(v).value) + rest)
            == Some((PropertyStmt(at, name, Meaning(v)), rest))
  {
    var x := Serialize(v).value;
    var all := PropertyBlock(at, name, x);
    if at.visibility == Public {
      SerializeRoundTrip(v, LineEnd + rest);
      Regroup5(all, InstanceArrow, name, " = ", x, LineEnd, rest);
      StatementMember(all + rest, name + (" = " + (x + (LineEnd + rest))));
      MemberAssignSteps(name + (" = " + (x + (LineEnd + rest))), name, x, Meaning(v), rest);
    } else {
      SerializeRoundTrip(v, ");\n" + rest);
      RegroupForced(all, ReflectionOpen, Quote(at.declaring), ", ", Quote(name), ");\n",
                    SetAccessible, SetValueOpen, x, ");\n", rest);
      var u := Quote(at.declaring) + (", " + (Quote(name) + (ForcedMiddle + (x + (");\n" + rest)))));
      StatementForced(all + rest, u);
      ForcedSteps(u, at.declaring, name, x, Meaning(v), rest);
    }
  }

  lemma StatementsStep(t: string, st: Stmt, rest: string, m: seq<Stmt>)
    requires |t| > 0 && t[0] == ' '
    requires ParseStatement(t) == Some((st, rest)) && ParseStatements(rest) == Some(m)
    ensures ParseStatements(t) == Some([st] + m)
  {
    assert t != Closer by { assert Closer[0] == '\n'; }
  }

  /** A statement text followed by more statements reads back as that statement, then the rest. */
  lemma StatementsCons(all: string, first: string, more: string, z: string, st: Stmt, m: seq<Stmt>)
    requires all == first + more && |first| > 0 && first[0] == ' '
    requires ParseStatement(first + (more + z)) == Some((st, more + z))
    requires ParseStatements(more + z) == Some(m)
    ensures ParseStatements(all + z) == Some([st] + m)
  {
    Regroup2(all, first, more, z);
    CharAt(all + z, first, more + z, 0);
    StatementsStep(all + z, st, more + z, m);
  }

  lemma CallTextStart(c: MethodCall)
    requires CallText(c).Ok?
    ensures |CallText(c).value| > 0 && CallText(c).value[0] == ' '
  {
    CallTextIs(c);
    CharAt(CallText(c).value, InstanceArrow, c.name + ArgumentsText(c.arguments).value + LineEnd, 0);
  }

  lemma CallsTail(calls: seq<MethodCall>)
    requires calls != []
    requires CallsSupported(calls) && forall i :: 0 <= i < |calls| ==> IsName(calls[i].name)
    ensures CallsSupported(calls[1..]) && forall i :: 0 <= i < |calls[1..]| ==> IsName(calls[1..][i].name)
    ensures IsName(calls[0].name) && AllSupported(calls[0].arguments)
  {
    assert forall i :: 1 <= i < |calls| ==> calls[1..][i - 1] == calls[i];
  }

  lemma {:induction false} CallsRoundTrip(calls: seq<MethodCall>, z: string, m: seq<Stmt>)
    requires CallsSupported(calls) && forall i :: 0 <= i < |calls| ==> IsName(calls[i].name)
    requires ParseStatements(z) == Some(m)
    ensures Concat(calls, CallText).Ok?
    ensures ParseStatements(Concat(calls, CallText).value + z) == Some(CallStmts(calls) + m)
  {
    CallsOk(calls);
    var all := Concat(calls, CallText).value;
    if calls == [] {
      JoinEmpty(all, z);
      assert CallStmts(calls) + m == m;
    } else {
      ConcatCons(calls, CallText);
      CallsTail(calls);
      var first := CallText(calls[0]).value;
      var more := Concat(calls[1..], CallText).value;
      CallsRoundTrip(calls[1..], z, m);
      CallRoundTrip(calls[0], more + z);
      CallTextStart(calls[0]);
      var st := Call(calls[0].name, Meanings(calls[0].arguments));
      StatementsCons(all, first, more, z, st, CallStmts(calls[1..]) + m);
      assert CallStmts(calls) + m == [st] + (CallStmts(calls[1..]) + m);
    }
  }

  lemma PropertyBlockStart(at: Resolved, name: string, x: string)
    ensures |PropertyBlock(at, name, x)| > 0 && PropertyBlock(at, name, x)[0] == ' '
  {
    var all := PropertyBlock(at, name, x);
    if at.visibility == Public {
      CharAt(all, InstanceArrow, name + " = " + x + LineEnd, 0);
    } else {
      CharAt(all, ReflectionOpen, Quote(at.declaring) + ", " + Quote(name) + ");\n"
                                   + SetAccessible + SetValueOpen + x + ");\n", 0);
    }
  }

  lemma PropertiesTail(table: Table, className: string, properties: seq<Property>)
    requires WellFormed(table) && className in table && properties != []
    requires PropertiesResolve(table, className, properties)
    requires forall i :: 0 <= i < |properties| ==> IsName(properties[i].name)
    ensures PropertiesResolve(table, className, properties[1..])
    ensures forall i :: 0 <= i < |properties[1..]| ==> IsName(properties[1..][i].name)
    ensures IsName(properties[0].name) && Supported(properties[0].value)
    ensures Lookup(table, className, properties[0].name).Ok?
  {
    assert forall i :: 1 <= i < |properties| ==> properties[1..][i - 1] == properties[i];
  }

  lemma {:induction false} PropertiesRoundTrip(table: Table, className: string, properties: seq<Property>,
                                               z: string, m: seq<Stmt>)
    requires WellFormed(table) && className in table
    requires PropertiesResolve(table, className, properties)
    requires forall i :: 0 <= i < |properties| ==> IsName(properties[i].name)
    requires ParseStatements(z) == Some(m)
    ensures Concat(properties, PropertyPiece(table, className)).Ok?
    ensures ParseStatements(Concat(properties, PropertyPiece(table, className)).value + z)
            == Some(PropertyStmts(table, className, properties) + m)
  {
    var piece := PropertyPiece(table, className);
    PropertiesOk(table, className, properties);
    var all := Concat(properties, piece).value;
    if properties == [] {
      JoinEmpty(all, z);
      assert PropertyStmts(table, className, properties) + m == m;
    } else {
      ConcatCons(properties, piece);
      PropertiesTail(table, className, properties);
      var p := properties[0];
      var at := Lookup(table, className, p.name).value;
      var x := Serialize(p.value).value;
      PropertyPieceIs(table, className, p, at, x);
      var first := piece(p).value;
      var more := Concat(properties[1..], piece).value;
      PropertiesRoundTrip(table, className, properties[1..], z, m);
      PropertyBlockRoundTrip(at, p.name, p.value, more + z);
      PropertyBlockStart(at, p.name, x);
      var st := PropertyStmt(at, p.name, Meaning(p.value));
      var ms := PropertyStmts(table, className, properties[1..]) + m;
      StatementsCons(all, first, more, z, st, ms);
      assert PropertyStmts(table, className, properties) + m == [st] + ms;
    }
  }

  lemma HeaderRoundTrip(file: Option<string>, w: string)
    requires StartsWith(w, NewOpen)
    ensures ParseHeader(RequireText(file) + w) == Some((RequireStmts(file), w))
  {
    var req := RequireText(file);
    if Truthy(file) {
      Regroup3(req, RequireOpen, Quote(file.value), LineEnd, w);
      ExpectPrefix(RequireOpen, Quote(file.value) + (LineEnd + w));
      QuoteRoundTrip(file.value, LineEnd + w);
      ExpectPrefix(LineEnd, w);
    } else {
      JoinEmpty(req, w);
      assert w[4] == w[..|NewOpen|][4];
      NotStartsWith(w, RequireOpen, 4);
    }
  }

  lemma ConstructSteps(t: string, cls: string, w: string, m: seq<Expr>, rest: string)
    requires t == NewOpen + (cls + w) && IsClassName(cls)
    requires |w| > 0 && w[0] == '('
    requires ParseArguments(w) == Some((m, LineEnd + rest))
    ensures ParseConstruct(t) == Some((Construct(cls, m), rest))
  {
    ExpectPrefix(NewOpen, cls + w);
    NameRoundTrip(cls, w, IsClassNameChar);
    ExpectPrefix(LineEnd, rest);
  }

  /** The construction line reads back as the class and the meanings of its arguments. */
  lemma ConstructRoundTrip(con: string, cls: string, args: seq<Value>, rest: string)
    requires IsClassName(cls) && AllSupported(args)
    requires ArgumentsText(args).Ok?
    requires con == NewOpen + cls + ArgumentsText(args).value + LineEnd
    ensures StartsWith(con + rest, NewOpen)
    ensures ParseConstruct(con + rest) == Some((Construct(cls, Meanings(args)), rest))
  {
    var a := ArgumentsText(args).value;
    ArgumentsRoundTrip(args, LineEnd + rest);
    ArgumentsTextIs(args);
    CharAt(a, "(" + Concat(args, ArgumentText).value, ")", 0);
    var w := a + (LineEnd + rest);
    CharAt(w, a, LineEnd + rest, 0);
    Regroup4(con, NewOpen, cls, a, LineEnd, rest);
    ExpectPrefix(NewOpen, cls + w);
    ConstructSteps(con + rest, cls, w, Meanings(args), rest);
  }

  lemma InjectorSteps(code: string, r1: string, head: seq<Stmt>, hrest: string, st: Stmt, crest: string,
                      body: seq<Stmt>)
    requires code == Opener + r1
    requires ParseHeader(r1) == Some((head, hrest))
    requires ParseConstruct(hrest) == Some((st, crest))
    requires ParseStatements(crest) == Some(body)
    ensures ParseInjector(code) == Some(head + [st] + body)
  {
    ExpectPrefix(Opener, r1);
  }

  lemma Regroup6(all: string, a: string, b: string, c: string, d: string, e: string, f: string)
    requires all == a + b + c + d + e + f
    ensures all == a + (b + (c + (d + (e + f))))
  {
  }

  /**
   * The closure `generate` emits reads back as the plan of the definition:
   * the optional `require_once`, the construction, every method call in
   * order, then every property assignment in order, each direct or forced as
   * the declaring class's visibility demands.
   */
  lemma GenerateRoundTrip(table: Table, def: Definition)
    requires WellFormed(table) && ReadableNames(def) && Plan(table, def).Some?
    ensures GenerateText(table, def).Ok?
    ensures ParseInjector(GenerateText(table, def).value) == Plan(table, def)
  {
    ArgumentsOk(def.arguments);
    CallsOk(def.methodCalls);
    PropertiesOk(table, def.className, def.properties);
    var a := ArgumentsText(def.arguments).value;
    var c := Concat(def.methodCalls, CallText).value;
    var p := Concat(def.properties, PropertyPiece(table, def.className)).value;
    GenerateTextIs(table, def, a, c, p);
    var code := GenerateText(table, def).value;
    var req := RequireText(def.file);
    var con := NewOpen + def.className + a + LineEnd;
    var ps := PropertyStmts(table, def.className, def.properties);
    var cs := CallStmts(def.methodCalls);
    assert ParseStatements(Closer) == Some([]);
    PropertiesRoundTrip(table, def.className, def.properties, Closer, []);
    CallsRoundTrip(def.methodCalls, p + Closer, ps + []);
    var v := c + (p + Closer);
    ConstructRoundTrip(con, def.className, def.arguments, v);
    HeaderRoundTrip(def.file, con + v);
    Regroup6(code, Opener, req, con, c, p, Closer);
    assert code == Opener + (req + (con + v));
    var st := Construct(def.className, Meanings(def.arguments));
    InjectorSteps(code, req + (con + v), RequireStmts(def.file), con + v, st, v, cs + (ps + []));
    StatementsRegroup(RequireStmts(def.file), [st], cs, ps);
  }

  lemma StatementsRegroup(a: seq<Stmt>, b: seq<Stmt>, c: seq<Stmt>, d: seq<Stmt>)
    ensures a + b + (c + (d + [])) == a + b + c + d
  {
    assert d + [] == d;
  }
}
