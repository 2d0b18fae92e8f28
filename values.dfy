/**
 * The value serializer of DefinitionInjectorGenerator (`dumpValue`): turns a
 * configuration value of a service definition into the PHP expression that
 * rebuilds it inside the generated factory closure.
 *
 * `Meaning` says, independently of any text, which PHP expression each value
 * stands for, and `ParseExpr` reads emitted text back into such expressions;
 * the round-trip lemma ties the three together.
 */
module Values {
  import opened Wrappers
  import opened PhpLiterals

  /** PHP array keys are integers or strings. */
  datatype Key = IntKey(i: int) | StrKey(s: string)

  /** A configuration value as `dumpValue` dispatches on it. */
  datatype Value =
    | Array(entries: seq<Entry>)                   // a PHP array, in its own key order
    | Reference(id: string, invalidBehavior: int)  // Symfony Reference
    | Parameter(name: string)                      // Symfony Parameter
    | ScalarValue(c: Scalar)                       // is_scalar($value) || null === $value
    | Unsupported(typeTag: string)                 // anything else (objects, resources, ...)

  datatype Entry = Entry(key: Key, val: Value)

  /** The ways generation fails. */
  datatype Error =
    | UnsupportedValue(typeTag: string)
    | MissingClass(className: string)
    | MissingProperty(property: string, className: string)

  /** The service id that denotes the container itself. */
  const ContainerId := "service_container"

  // ---------------------------------------------------------------------
  // Which values can be serialized

  /** No unsupported value occurs anywhere in `v`. */
  predicate Supported(v: Value) {
    match v
    case Array(es) => forall i :: 0 <= i < |es| ==> Supported(es[i].val)
    case Unsupported(_) => false
    case _ => true
  }

  /** An unsupported value with type tag `tag` occurs somewhere in `v`. */
  predicate HasUnsupported(v: Value, tag: string) {
    match v
    case Array(es) => exists i :: 0 <= i < |es| && HasUnsupported(es[i].val, tag)
    case Unsupported(t) => t == tag
    case _ => false
  }

  lemma {:induction false} SupportedIffNoUnsupported(v: Value)
    ensures Supported(v) <==> forall tag :: !HasUnsupported(v, tag)
  {
    match v
    case Array(es) =>
      forall i | 0 <= i < |es| {
        SupportedIffNoUnsupported(es[i].val);
      }
      if !Supported(v) {
        var i :| 0 <= i < |es| && !Supported(es[i].val);
        var tag :| HasUnsupported(es[i].val, tag);
        assert HasUnsupported(v, tag);
      }
    case Unsupported(t) =>
      assert HasUnsupported(v, t);
    case _ =>
  }

  // ---------------------------------------------------------------------
  // Placeholders

  /**
   * The whole-string `%name%` test of `dumpValue`: the first character is
   * `%` and the second is not.  The last character is never looked at, and a
   * lone `%` counts as a placeholder.
   */
  predicate IsPlaceholder(s: string) {
    |s| > 0 && s[0] == '%' && (|s| < 2 || s[1] != '%')
  }

  /** `substr($value, 1, -1)`: drop the first and the last character. */
  function PlaceholderName(s: string): (name: string)
    requires IsPlaceholder(s)
    ensures |s| >= 2 ==> s == [s[0]] + name + [s[|s| - 1]]
    ensures |s| < 2 ==> name == []
  {
    if |s| < 2 then [] else s[1..|s| - 1]
  }

  // ---------------------------------------------------------------------
  // The serializer

  const ContainerVar := "$container"
  const GetParameterOpen := ContainerVar + "->getParameter("
  const GetOpen := ContainerVar + "->get("

  function KeyText(k: Key): string {
    match k
    case IntKey(i) => IntText(i)
    case StrKey(s) => Quote(s)
  }

  /** `dumpValue($value)`: the PHP expression for `v`, or the error it raises. */
  function Serialize(v: Value): (r: Result<string, Error>)
    ensures r.Ok? <==> Supported(v)
    ensures r.Err? ==> r.error.UnsupportedValue? && HasUnsupported(v, r.error.typeTag)
    ensures v == Array([]) ==> r == Ok("array()")
    decreases v, 1
  {
    match v
    case Array(es) =>
      var body :- SerializeEntries(es, 0);
      assert es == [] ==> "array(" + body + ")" == "array()";
      Ok("array(" + body + ")")
    case Reference(id, behavior) =>
      if id == ContainerId then Ok(ContainerVar)
      else Ok(GetOpen + Quote(id) + ", " + IntText(behavior) + ")")
    case Parameter(name) =>
      Ok(GetParameterOpen + Quote(name) + ")")
    case ScalarValue(c) =>
      if c.Str? && IsPlaceholder(c.s) then Ok(GetParameterOpen + Quote(PlaceholderName(c.s)) + ")")
      else Ok(VarExport(c))
    case Unsupported(tag) =>
      Err(UnsupportedValue(tag))
  }

  /**
   * The entries `es[i..]` of an array literal, `k => v` each, joined by
   * `", "`; the first failing entry decides the error.
   */
  function SerializeEntries(es: seq<Entry>, i: nat): (r: Result<string, Error>)
    requires i <= |es|
    ensures r.Ok? <==> forall j :: i <= j < |es| ==> Supported(es[j].val)
    ensures r.Err? ==> r.error.UnsupportedValue?
    ensures r.Err? ==> exists j :: i <= j < |es| && HasUnsupported(es[j].val, r.error.typeTag)
    ensures i == |es| ==> r == Ok("")
    decreases Array(es), 0, |es| - i
  {
    if i == |es| then Ok("")
    else
      var value :- Serialize(es[i].val);
      var first := KeyText(es[i].key) + " => " + value;
      if i + 1 == |es| then Ok(first)
      else
        var more :- SerializeEntries(es, i + 1);
        Ok(first + ", " + more)
  }

  /** One entry as `dumpValue` prints it: the exported key, `" => "`, the value. */
  function EntryText(e: Entry): string
    requires Supported(e.val)
  {
    KeyText(e.key) + " => " + Serialize(e.val).value
  }

  /** The entries `es[..i]` as the loop of `dumpValue` has appended them so far. */
  ghost function EntriesPrefix(es: seq<Entry>, i: nat): string
    requires i <= |es| && forall j :: 0 <= j < i ==> Supported(es[j].val)
  {
    if i == 0 then ""
    else EntriesPrefix(es, i - 1) + (if i > 1 then ", " else "") + EntryText(es[i - 1])
  }

  lemma SerializeEntriesCons(es: seq<Entry>, i: nat)
    requires i < |es| && forall j :: i <= j < |es| ==> Supported(es[j].val)
    ensures SerializeEntries(es, i).Ok? && SerializeEntries(es, i + 1).Ok?
    ensures SerializeEntries(es, i).value
      == EntryText(es[i]) + (if i + 1 < |es| then ", " + SerializeEntries(es, i + 1).value else "")
  {
  }

  lemma JoinEntries(p: string, s1: string, e: string, s3: string, tail: string, rest: string)
    requires tail == s3 + rest
    ensures p + s1 + (e + tail) == p + s1 + e + s3 + rest
  {
  }

  /**
   * The whole entry list is the prefix the loop has built, the separator,
   * and the entries still to come.
   */
  lemma {:induction false} EntriesSplit(es: seq<Entry>, i: nat)
    requires i <= |es| && forall j :: 0 <= j < |es| ==> Supported(es[j].val)
    ensures SerializeEntries(es, 0).Ok? && SerializeEntries(es, i).Ok?
    ensures SerializeEntries(es, 0).value
      == EntriesPrefix(es, i) + (if 0 < i < |es| then ", " else "") + SerializeEntries(es, i).value
  {
    if i > 0 {
      EntriesSplit(es, i - 1);
      SerializeEntriesCons(es, i - 1);
      var tail := if i < |es| then ", " + SerializeEntries(es, i).value else "";
      var s3 := if 0 < i < |es| then ", " else "";
      assert tail == s3 + SerializeEntries(es, i).value;
      JoinEntries(EntriesPrefix(es, i - 1), if i > 1 then ", " else "", EntryText(es[i - 1]), s3, tail,
                  SerializeEntries(es, i).value);
    } else {
      assert EntriesPrefix(es, 0) + "" + SerializeEntries(es, 0).value == SerializeEntries(es, 0).value;
    }
  }

  /** The first unsupported entry value decides the error of the suffix from `k` on. */
  lemma {:induction false} EntriesFailFrom(es: seq<Entry>, k: nat, i: nat)
    requires k <= i < |es| && forall j :: k <= j < i ==> Supported(es[j].val)
    requires !Supported(es[i].val)
    ensures SerializeEntries(es, k) == Err(Serialize(es[i].val).error)
    decreases i - k
  {
    if k < i {
      EntriesFailFrom(es, k + 1, i);
    }
  }

  lemma ArrayOk(es: seq<Entry>)
    requires forall j :: 0 <= j < |es| ==> Supported(es[j].val)
    ensures Serialize(Array(es)) == Ok("array(" + EntriesPrefix(es, |es|) + ")")
  {
    EntriesSplit(es, |es|);
    SerializeArray(es);
    DropEmpty(EntriesPrefix(es, |es|), if 0 < |es| < |es| then ", " else "", SerializeEntries(es, |es|).value);
  }

  lemma SerializeArray(es: seq<Entry>)
    requires SerializeEntries(es, 0).Ok?
    ensures Serialize(Array(es)) == Ok("array(" + SerializeEntries(es, 0).value + ")")
  {
  }

  lemma DropEmpty(a: string, b: string, c: string)
    requires b == [] && c == []
    ensures a + b + c == a
  {
  }

  lemma ArrayFails(es: seq<Entry>, i: nat)
    requires i < |es| && forall j :: 0 <= j < i ==> Supported(es[j].val)
    requires !Supported(es[i].val)
    ensures Serialize(Array(es)) == Err(Serialize(es[i].val).error)
  {
    EntriesFailFrom(es, 0, i);
  }

  lemma PrefixStep(es: seq<Entry>, i: nat, code: string, sep: string, x: string)
    requires i < |es| && forall j :: 0 <= j <= i ==> Supported(es[j].val)
    requires code == "array(" + EntriesPrefix(es, i)
    requires sep == (if i > 0 then ", " else "") && x == EntryText(es[i])
    ensures code + sep + x == "array(" + EntriesPrefix(es, i + 1)
  {
  }

  /**
   * `dumpValue($value)` as the source writes it: the array branch appends
   * entry after entry to `code`, a separator before every entry but the
   * first.
   */
  method DumpValue(v: Value) returns (r: Result<string, Error>)
    ensures r == Serialize(v)
    decreases v
  {
    match v
    case Array(es) =>
      var code := "array(";
      var first := true;
      var i := 0;
      while i < |es|
        invariant 0 <= i <= |es|
        invariant forall j :: 0 <= j < i ==> Supported(es[j].val)
        invariant first <==> i == 0
        invariant code == "array(" + EntriesPrefix(es, i)
      {
        ghost var start := code;
        if !first {
          code := code + ", ";
        }
        first := false;
        var value := DumpValue(es[i].val);
        if value.Err? {
          ArrayFails(es, i);
          return Err(value.error);
        }
        assert code == start + (if i > 0 then ", " else "");
        code := code + (KeyText(es[i].key) + " => " + value.value);
        PrefixStep(es, i, "array(" + EntriesPrefix(es, i), if i > 0 then ", " else "", EntryText(es[i]));
        i := i + 1;
      }
      ArrayOk(es);
      return Ok(code + ")");
    case Reference(id, behavior) =>
      if id == ContainerId {
        return Ok(ContainerVar);
      }
      return Ok(GetOpen + Quote(id) + ", " + IntText(behavior) + ")");
    case Parameter(name) =>
      return Ok(GetParameterOpen + Quote(name) + ")");
    case ScalarValue(c) =>
      // Embedded parameters are not supported: only a whole-string placeholder.
      if c.Str? && IsPlaceholder(c.s) {
        return Ok(GetParameterOpen + Quote(PlaceholderName(c.s)) + ")");
      }
      return Ok(VarExport(c));
    case Unsupported(tag) =>
      return Err(UnsupportedValue(tag));
  }

  // ---------------------------------------------------------------------
  // What the emitted expression stands for

  /** The PHP expressions the serializer emits, as abstract syntax. */
  datatype Expr =
    | ArrayLit(entries: seq<ExprEntry>)       // array(k => e, ...)
    | ContainerHandle                         // $container
    | ContainerGet(id: string, behavior: int) // $container->get(id, behavior)
    | ContainerParameter(name: string)        // $container->getParameter(name)
    | Literal(c: Scalar)                      // a scalar or null literal

  datatype ExprEntry = ExprEntry(key: Key, val: Expr)

  /**
   * The expression a supported value is meant to become: arrays keep their
   * keys and order, the container's own id becomes the container handle,
   * parameters and whole-string placeholders become parameter lookups, and
   * every other scalar stands for itself.
   */
  function Meaning(v: Value): (e: Expr)
    requires Supported(v)
    ensures v.Array? <==> e.ArrayLit?
    decreases v, 1
  {
    match v
    case Array(es) => ArrayLit(MeaningEntries(es, 0))
    case Reference(id, behavior) => if id == ContainerId then ContainerHandle else ContainerGet(id, behavior)
    case Parameter(name) => ContainerParameter(name)
    case ScalarValue(c) =>
      if c.Str? && IsPlaceholder(c.s) then ContainerParameter(PlaceholderName(c.s)) else Literal(c)
  }

  function MeaningEntries(es: seq<Entry>, i: nat): (r: seq<ExprEntry>)
    requires i <= |es|
    requires forall j :: i <= j < |es| ==> Supported(es[j].val)
    ensures |r| == |es| - i
    ensures forall j :: 0 <= j < |r| ==> r[j].key == es[i + j].key && r[j].val == Meaning(es[i + j].val)
    decreases Array(es), 0, |es| - i
  {
    if i == |es| then [] else [ExprEntry(es[i].key, Meaning(es[i].val))] + MeaningEntries(es, i + 1)
  }

  // ---------------------------------------------------------------------
  // Reading an emitted expression back

  function ParseKey(t: string): (r: Option<(Key, string)>)
    ensures r.Some? ==> |r.value.1| < |t|
  {
    if |t| > 0 && t[0] == '\'' then
      var q :- ParseQuoted(t);
      Some((StrKey(q.0), q.1))
    else
      var n :- ParseInt(t);
      Some((IntKey(n.0), n.1))
  }

  /** Reads one expression from the front of `t`; returns it and what follows. */
  function ParseExpr(t: string): (r: Option<(Expr, string)>)
    ensures r.Some? ==> |r.value.1| < |t|
    decreases |t|, 2
  {
    if StartsWith(t, "array(") then ParseArrayRest(t[6..])
    else if StartsWith(t, ContainerVar) then ParseContainerRest(t[|ContainerVar|..])
    else
      var c :- ParseScalar(t);
      Some((Literal(c.0), c.1))
  }

  /** What follows `array(`: `)` alone, or a list of entries. */
  function ParseArrayRest(u: string): (r: Option<(Expr, string)>)
    ensures r.Some? ==> |r.value.1| < |u|
    decreases |u|, 1
  {
    if StartsWith(u, ")") then Some((ArrayLit([]), u[1..]))
    else
      var es :- ParseEntryList(u);
      Some((ArrayLit(es.0), es.1))
  }

  /** What follows `$container`: a `get` or `getParameter` call, or nothing. */
  function ParseContainerRest(u: string): (r: Option<(Expr, string)>)
    ensures r.Some? ==> |r.value.1| <= |u|
  {
    if StartsWith(u, "->getParameter(") then
      var name :- ParseQuoted(u[15..]);
      var rest :- Expect(")", name.1);
      Some((ContainerParameter(name.0), rest))
    else if StartsWith(u, "->get(") then
      var id :- ParseQuoted(u[6..]);
      var r1 :- Expect(", ", id.1);
      var behavior :- ParseInt(r1);
      var rest :- Expect(")", behavior.1);
      Some((ContainerGet(id.0, behavior.0), rest))
    else Some((ContainerHandle, u))
  }

  /** Reads `k => e, ..., k => e)`: one or more entries and the closing parenthesis. */
  function ParseEntryList(t: string): (r: Option<(seq<ExprEntry>, string)>)
    ensures r.Some? ==> |r.value.1| < |t|
    decreases |t|, 0
  {
    var k :- ParseKey(t);
    var r1 :- Expect(" => ", k.1);
    var e :- ParseExpr(r1);
    if StartsWith(e.1, ", ") then
      var more :- ParseEntryList(e.1[2..]);
      Some(([ExprEntry(k.0, e.0)] + more.0, more.1))
    else
      var rest :- Expect(")", e.1);
      Some(([ExprEntry(k.0, e.0)], rest))
  }

  /** What may follow an emitted expression: an argument separator, a closing parenthesis or a semicolon. */
  predicate Boundary(rest: string) {
    rest == [] || rest[0] == ',' || rest[0] == ')' || rest[0] == ';'
  }

  lemma KeyRoundTrip(k: Key, rest: string)
    requires rest == [] || !IsDigit(rest[0])
    ensures ParseKey(KeyText(k) + rest) == Some((k, rest))
  {
    match k
    case IntKey(i) =>
      var t := IntText(i) + rest;
      assert t[0] == '-' || IsDigit(t[0]);
      IntTextRoundTrip(i, rest);
    case StrKey(s) =>
      QuoteRoundTrip(s, rest);
  }

  /**
   * The serializer's output reads back as exactly the expression the value
   * means, and reading stops right at its end.
   */
  lemma {:induction false} SerializeRoundTrip(v: Value, rest: string)
    requires Supported(v) && Boundary(rest)
    ensures ParseExpr(Serialize(v).value + rest) == Some((Meaning(v), rest))
    decreases v, 1
  {
    match v
    case Array(es) =>
      if es == [] {
        ExpectPrefix("array(", ")" + rest);
        ExpectPrefix(")", rest);
      } else {
        EntriesRoundTrip(es, 0, rest);
        ArrayRoundTrip(es, rest, MeaningEntries(es, 0));
      }
    case Reference(id, behavior) =>
      ReferenceRoundTrip(id, behavior, rest);
    case Parameter(name) =>
      GetParameterRoundTrip(name, rest);
    case ScalarValue(c) =>
      if c.Str? && IsPlaceholder(c.s) {
        GetParameterRoundTrip(PlaceholderName(c.s), rest);
      } else {
        LiteralRoundTrip(c, rest);
      }
  }

  lemma ArrayRoundTrip(es: seq<Entry>, rest: string, m: seq<ExprEntry>)
    requires es != [] && forall j :: 0 <= j < |es| ==> Supported(es[j].val)
    requires ParseEntryList(SerializeEntries(es, 0).value + ")" + rest) == Some((m, rest))
    ensures ParseExpr(Serialize(Array(es)).value + rest) == Some((ArrayLit(m), rest))
  {
    var u := SerializeEntries(es, 0).value + ")" + rest;
    assert Serialize(Array(es)).value + rest == "array(" + u;
    ParseArrayOpen(u);
    EntriesStart(es, 0);
    ParseNonEmptyArray(u);
  }

  lemma ParseArrayOpen(u: string)
    ensures ParseExpr("array(" + u) == ParseArrayRest(u)
  {
    ExpectPrefix("array(", u);
  }

  lemma ParseNonEmptyArray(u: string)
    requires |u| > 0 && u[0] != ')'
    ensures ParseArrayRest(u) == match ParseEntryList(u)
      case None => None
      case Some(es) => Some((ArrayLit(es.0), es.1))
  {
    NotStartsWith(u, ")", 0);
  }

  lemma ReferenceRoundTrip(id: string, behavior: int, rest: string)
    requires Boundary(rest)
    ensures ParseExpr(Serialize(Reference(id, behavior)).value + rest) == Some((Meaning(Reference(id, behavior)), rest))
  {
    if id == ContainerId {
      ParseContainerOpen(rest);
      ParseContainerAlone(rest);
    } else {
      var call := "->get(" + Quote(id) + ", " + IntText(behavior) + ")";
      assert Serialize(Reference(id, behavior)).value == ContainerVar + call;
      ContainerCallRoundTrip(call, rest, ContainerGet(id, behavior)) by {
        ParseGetCall(id, behavior, rest);
      }
    }
  }

  lemma ContainerCallRoundTrip(call: string, rest: string, e: Expr)
    requires ParseContainerRest(call + rest) == Some((e, rest))
    ensures ParseExpr(ContainerVar + call + rest) == Some((e, rest))
  {
    assert ContainerVar + call + rest == ContainerVar + (call + rest);
    ParseContainerOpen(call + rest);
  }

  lemma ParseContainerAlone(rest: string)
    requires Boundary(rest)
    ensures ParseContainerRest(rest) == Some((ContainerHandle, rest))
  {
    NotStartsWith(rest, "->getParameter(", 0);
    NotStartsWith(rest, "->get(", 0);
  }

  lemma ParseContainerOpen(u: string)
    ensures ParseExpr(ContainerVar + u) == ParseContainerRest(u)
  {
    var t := ContainerVar + u;
    NotStartsWith(t, "array(", 0);
    ExpectPrefix(ContainerVar, u);
  }

  lemma ParseGetCall(id: string, behavior: int, rest: string)
    ensures ParseContainerRest("->get(" + Quote(id) + ", " + IntText(behavior) + ")" + rest)
         == Some((ContainerGet(id, behavior), rest))
  {
    var r1 := IntText(behavior) + (")" + rest);
    var x := Quote(id) + (", " + r1);
    assert "->get(" + Quote(id) + ", " + IntText(behavior) + ")" + rest == "->get(" + x;
    QuoteRoundTrip(id, ", " + r1);
    IntTextRoundTrip(behavior, ")" + rest);
    GetCallSteps(x, id, behavior, r1, rest);
  }

  lemma GetCallSteps(x: string, id: string, behavior: int, r1: string, rest: string)
    requires ParseQuoted(x) == Some((id, ", " + r1))
    requires ParseInt(r1) == Some((behavior, ")" + rest))
    ensures ParseContainerRest("->get(" + x) == Some((ContainerGet(id, behavior), rest))
  {
    NotStartsWith("->get(" + x, "->getParameter(", 5);
    ExpectPrefix("->get(", x);
    ExpectPrefix(", ", r1);
    ExpectPrefix(")", rest);
  }

  lemma GetParameterRoundTrip(name: string, rest: string)
    ensures ParseExpr(GetParameterOpen + Quote(name) + ")" + rest) == Some((ContainerParameter(name), rest))
  {
    var call := "->getParameter(" + Quote(name) + ")";
    assert GetParameterOpen + Quote(name) + ")" == ContainerVar + call;
    ContainerCallRoundTrip(call, rest, ContainerParameter(name)) by {
      ParseGetParameterCall(name, rest);
    }
  }

  lemma ParseGetParameterCall(name: string, rest: string)
    ensures ParseContainerRest("->getParameter(" + Quote(name) + ")" + rest) == Some((ContainerParameter(name), rest))
  {
    var x := Quote(name) + (")" + rest);
    assert "->getParameter(" + Quote(name) + ")" + rest == "->getParameter(" + x;
    QuoteRoundTrip(name, ")" + rest);
    GetParameterCallSteps(x, name, rest);
  }

  lemma GetParameterCallSteps(x: string, name: string, rest: string)
    requires ParseQuoted(x) == Some((name, ")" + rest))
    ensures ParseContainerRest("->getParameter(" + x) == Some((ContainerParameter(name), rest))
  {
    ExpectPrefix("->getParameter(", x);
    ExpectPrefix(")", rest);
  }

  lemma LiteralRoundTrip(c: Scalar, rest: string)
    requires Boundary(rest)
    ensures ParseExpr(VarExport(c) + rest) == Some((Literal(c), rest))
  {
    var lit := VarExport(c);
    var t := lit + rest;
    assert lit == "NULL" || lit == "true" || lit == "false" || lit[0] == '\'' || lit[0] == '-' || IsDigit(lit[0]);
    assert t[0] == lit[0];
    NotStartsWith(t, "array(", 0);
    NotStartsWith(t, ContainerVar, 0);
    VarExportRoundTrip(c, rest);
  }

  /** A nonempty list of entries starts with a key, never with a parenthesis. */
  lemma EntriesStart(es: seq<Entry>, i: nat)
    requires i < |es| && forall j :: i <= j < |es| ==> Supported(es[j].val)
    ensures |SerializeEntries(es, i).value| > 0
    ensures SerializeEntries(es, i).value[0] == KeyText(es[i].key)[0]
  {
    var k := KeyText(es[i].key);
    match es[i].key
    case IntKey(n) => assert |k| > 0;
    case StrKey(s) => assert |k| > 0;
  }

  lemma {:induction false} EntriesRoundTrip(es: seq<Entry>, i: nat, rest: string)
    requires i < |es| && forall j :: i <= j < |es| ==> Supported(es[j].val)
    ensures ParseEntryList(SerializeEntries(es, i).value + ")" + rest) == Some((MeaningEntries(es, i), rest))
    decreases Array(es), 0, |es| - i
  {
    var key := es[i].key;
    var value := Serialize(es[i].val).value;
    var e := Meaning(es[i].val);
    if i + 1 == |es| {
      var x := value + (")" + rest);
      assert SerializeEntries(es, i).value + ")" + rest == KeyText(key) + (" => " + x);
      KeyRoundTrip(key, " => " + x);
      SerializeRoundTrip(es[i].val, ")" + rest);
      LastEntry(KeyText(key) + (" => " + x), key, x, e, rest);
      assert MeaningEntries(es, i) == [ExprEntry(key, e)];
    } else {
      var more := SerializeEntries(es, i + 1).value + ")" + rest;
      var x := value + (", " + more);
      assert SerializeEntries(es, i).value + ")" + rest == KeyText(key) + (" => " + x);
      KeyRoundTrip(key, " => " + x);
      SerializeRoundTrip(es[i].val, ", " + more);
      EntriesRoundTrip(es, i + 1, rest);
      NextEntry(KeyText(key) + (" => " + x), key, x, e, more, MeaningEntries(es, i + 1), rest);
      assert MeaningEntries(es, i) == [ExprEntry(key, e)] + MeaningEntries(es, i + 1);
    }
  }

  lemma LastEntry(t: string, k: Key, x: string, e: Expr, rest: string)
    requires ParseKey(t) == Some((k, " => " + x))
    requires ParseExpr(x) == Some((e, ")" + rest))
    ensures ParseEntryList(t) == Some(([ExprEntry(k, e)], rest))
  {
    ExpectPrefix(" => ", x);
    NotStartsWith(")" + rest, ", ", 0);
    ExpectPrefix(")", rest);
  }

  lemma NextEntry(t: string, k: Key, x: string, e: Expr, more: string, m: seq<ExprEntry>, rest: string)
    requires ParseKey(t) == Some((k, " => " + x))
    requires ParseExpr(x) == Some((e, ", " + more))
    requires ParseEntryList(more) == Some((m, rest))
    ensures ParseEntryList(t) == Some(([ExprEntry(k, e)] + m, rest))
  {
    ExpectPrefix(" => ", x);
    ExpectPrefix(", ", more);
  }

  // ---------------------------------------------------------------------
  // What each kind of value becomes

  /** An array reads back with the same keys, in the same order, each mapped to its value's meaning. */
  lemma ArrayKeepsKeysAndOrder(es: seq<Entry>)
    requires Supported(Array(es))
    ensures var p := ParseExpr(Serialize(Array(es)).value);
      && p.Some? && p.value.1 == [] && p.value.0.ArrayLit?
      && |p.value.0.entries| == |es|
      && forall j :: 0 <= j < |es| ==>
           p.value.0.entries[j].key == es[j].key && p.value.0.entries[j].val == Meaning(es[j].val)
  {
    var t := Serialize(Array(es)).value;
    assert t + [] == t;
    SerializeRoundTrip(Array(es), []);
  }

  /**
   * A reference to `service_container` is the container handle itself,
   * whatever its invalid-behaviour value; any other reference becomes a
   * `get` call carrying the id and the behaviour.
   */
  lemma ReferenceSemantics(id: string, behavior: int)
    ensures id == ContainerId ==> Serialize(Reference(id, behavior)) == Ok("$container")
    ensures var p := ParseExpr(Serialize(Reference(id, behavior)).value);
      p == Some((if id == ContainerId then ContainerHandle else ContainerGet(id, behavior), []))
  {
    var t := Serialize(Reference(id, behavior)).value;
    assert t + [] == t;
    SerializeRoundTrip(Reference(id, behavior), []);
  }

  /**
   * A string is a parameter lookup exactly when it passes the placeholder
   * test, and then names the string with its two ends cut off; otherwise it
   * is the literal string itself.
   */
  lemma StringSemantics(s: string)
    ensures var p := ParseExpr(Serialize(ScalarValue(Str(s))).value);
      p == Some((if IsPlaceholder(s) then ContainerParameter(PlaceholderName(s)) else Literal(Str(s)), []))
  {
    var t := Serialize(ScalarValue(Str(s))).value;
    assert t + [] == t;
    SerializeRoundTrip(ScalarValue(Str(s)), []);
  }

  /**
   * `%name%` is serialized exactly like `Parameter(name)`, for any nonempty
   * name not starting with `%` (`%%` itself is a literal).
   */
  lemma PlaceholderIsParameter(name: string)
    requires name != [] && name[0] != '%'
    ensures Serialize(ScalarValue(Str("%" + name + "%"))) == Serialize(Parameter(name))
  {
    PlaceholderDropsLastChar(name, '%');
  }

  /**
   * As written, the last character is dropped without being checked:
   * `%name` followed by any character serializes like `Parameter(name)`.
   */
  lemma PlaceholderDropsLastChar(name: string, last: char)
    requires if name == [] then last != '%' else name[0] != '%'
    ensures Serialize(ScalarValue(Str("%" + name + [last]))) == Serialize(Parameter(name))
  {
    var s := "%" + name + [last];
    assert s[1..|s| - 1] == name;
    assert IsPlaceholder(s);
  }

  /** A string starting with `%%` is an ordinary literal and reads back unchanged. */
  lemma EscapedPercentIsLiteral(s: string)
    requires |s| >= 2 && s[0] == '%' && s[1] == '%'
    ensures Serialize(ScalarValue(Str(s))) == Ok(Quote(s))
    ensures ParseExpr(Quote(s)) == Some((Literal(Str(s)), []))
  {
    StringSemantics(s);
  }

  /** A lone `%` names the empty parameter; the empty string is a literal. */
  lemma ShortStrings()
    ensures Serialize(ScalarValue(Str("%"))) == Serialize(Parameter(""))
    ensures Serialize(ScalarValue(Str(""))) == Ok("''")
  {
    assert IsPlaceholder("%");
    assert !IsPlaceholder("");
    assert Quote("") == "'" + [] + "'" == "''";
  }

  /** Null, booleans, integers and non-placeholder strings become their `var_export` literal, which reads back as the same scalar. */
  lemma ScalarSemantics(c: Scalar)
    requires !(c.Str? && IsPlaceholder(c.s))
    ensures Serialize(ScalarValue(c)) == Ok(VarExport(c))
    ensures ParseScalar(VarExport(c)) == Some((c, []))
  {
    assert VarExport(c) + [] == VarExport(c);
    VarExportRoundTrip(c, []);
  }

  /** An unsupported value at any depth makes the whole serialization fail. */
  lemma UnsupportedAnywhereFails(v: Value, tag: string)
    requires HasUnsupported(v, tag)
    ensures Serialize(v).Err? && Serialize(v).error.UnsupportedValue?
  {
    SupportedIffNoUnsupported(v);
  }
}
