/**
 * The part of PHP's class reflection that `getReflectionProperty` relies on:
 * a table from class name to the class's parent and the properties it
 * declares, and the walk up the parent chain to the nearest class that
 * declares a given property.
 */
module ClassTable {
  import opened Wrappers
  import opened Values

  datatype Visibility = Public | Protected | Private

  /**
   * One class: its parent, the properties it declares with their visibility,
   * and its depth, which strictly exceeds its parent's and so rules out
   * cycles in the parent chain.
   */
  datatype ClassInfo = ClassInfo(parent: Option<string>, properties: map<string, Visibility>, depth: nat)

  type Table = map<string, ClassInfo>

  /** Every parent is itself in the table, one level lower. */
  predicate WellFormed(table: Table) {
    forall c :: c in table && table[c].parent.Some? ==>
      table[c].parent.value in table && table[table[c].parent.value].depth < table[c].depth
  }

  predicate Declares(table: Table, c: string, property: string)
    requires c in table
  {
    property in table[c].properties
  }

  /** The class `c` followed by its parent, its parent's parent, and so on. */
  function Ancestors(table: Table, c: string): (chain: seq<string>)
    requires WellFormed(table) && c in table
    ensures |chain| > 0 && chain[0] == c
    ensures forall i :: 0 <= i < |chain| ==> chain[i] in table
    ensures forall i :: 0 <= i < |chain| - 1 ==> table[chain[i]].parent == Some(chain[i + 1])
    ensures table[chain[|chain| - 1]].parent.None?
    decreases table[c].depth
  {
    match table[c].parent
    case None => [c]
    case Some(p) => [c] + Ancestors(table, p)
  }

  /** `d` declares `property` and is the first class of `chain` that does. */
  predicate NearestDeclaring(table: Table, chain: seq<string>, property: string, d: string)
    requires forall i :: 0 <= i < |chain| ==> chain[i] in table
  {
    exists k :: 0 <= k < |chain| && chain[k] == d && Declares(table, chain[k], property)
      && forall j :: 0 <= j < k ==> !Declares(table, chain[j], property)
  }

  /** The walk up the parent chain, as a recursive definition. */
  function Walk(table: Table, c: string, property: string): Option<string>
    requires WellFormed(table) && c in table
    decreases table[c].depth
  {
    if Declares(table, c, property) then Some(c)
    else match table[c].parent
      case None => None
      case Some(p) => Walk(table, p, property)
  }

  /** The walk stops at the nearest declaring ancestor, and fails only when no ancestor declares the property. */
  lemma {:induction false} WalkFindsNearest(table: Table, c: string, property: string)
    requires WellFormed(table) && c in table
    ensures Walk(table, c, property).Some? ==>
      NearestDeclaring(table, Ancestors(table, c), property, Walk(table, c, property).value)
    ensures Walk(table, c, property).None? ==>
      forall j :: 0 <= j < |Ancestors(table, c)| ==> !Declares(table, Ancestors(table, c)[j], property)
    decreases table[c].depth
  {
    var chain := Ancestors(table, c);
    if Declares(table, c, property) {
      assert chain[0] == c;
    } else {
      match table[c].parent
      case None =>
        assert chain == [c];
      case Some(p) =>
        var tail := Ancestors(table, p);
        assert chain == [c] + tail;
        WalkFindsNearest(table, p, property);
        match Walk(table, p, property)
        case Some(d) =>
          var k :| 0 <= k < |tail| && tail[k] == d && Declares(table, tail[k], property)
            && forall j :: 0 <= j < k ==> !Declares(table, tail[j], property);
          assert chain[k + 1] == d;
          forall j | 0 <= j < k + 1
            ensures !Declares(table, chain[j], property)
          {
            if j > 0 {
              assert chain[j] == tail[j - 1];
              assert !Declares(table, tail[j - 1], property);
            }
          }
        case None =>
          forall j | 0 <= j < |chain|
            ensures !Declares(table, chain[j], property)
          {
            if j > 0 { assert chain[j] == tail[j - 1]; }
          }
    }
  }

  lemma NearestIsDeclaring(table: Table, chain: seq<string>, property: string, d: string)
    requires forall i :: 0 <= i < |chain| ==> chain[i] in table
    requires NearestDeclaring(table, chain, property, d)
    ensures exists j :: 0 <= j < |chain| && Declares(table, chain[j], property)
  {
    var k :| 0 <= k < |chain| && chain[k] == d && Declares(table, chain[k], property);
  }

  /** Where a property was found: the declaring class and the visibility declared there. */
  datatype Resolved = Resolved(declaring: string, visibility: Visibility)

  /**
   * `getReflectionProperty($ref, $property)`: the nearest class in the
   * parent chain of `c` that declares `property`, with that declaration's
   * visibility; a missing property is an error naming the requested class.
   */
  function Lookup(table: Table, c: string, property: string): (r: Result<Resolved, Error>)
    requires WellFormed(table) && c in table
    ensures r.Ok? <==> exists j :: 0 <= j < |Ancestors(table, c)| && Declares(table, Ancestors(table, c)[j], property)
    ensures r.Err? ==> r.error == MissingProperty(property, c)
    ensures r.Ok? ==> NearestDeclaring(table, Ancestors(table, c), property, r.value.declaring)
    ensures r.Ok? ==> r.value.visibility == table[r.value.declaring].properties[property]
  {
    WalkFindsNearest(table, c, property);
    match Walk(table, c, property)
    case Some(d) =>
      NearestIsDeclaring(table, Ancestors(table, c), property, d);
      assert exists j :: 0 <= j < |Ancestors(table, c)| && Declares(table, Ancestors(table, c)[j], property);
      Ok(Resolved(d, table[d].properties[property]))
    case None => Err(MissingProperty(property, c))
  }

  /**
   * The source's `while` loop: step to the parent until a class declares the
   * property or there is no parent left.
   */
  method GetReflectionProperty(table: Table, c: string, property: string) returns (r: Result<Resolved, Error>)
    requires WellFormed(table) && c in table
    ensures r == Lookup(table, c, property)
  {
    var ref := c;
    while !Declares(table, ref, property) && table[ref].parent.Some?
      invariant ref in table
      invariant Walk(table, ref, property) == Walk(table, c, property)
      decreases table[ref].depth
    {
      ref := table[ref].parent.value;
    }
    if !Declares(table, ref, property) {
      return Err(MissingProperty(property, c));
    }
    return Ok(Resolved(ref, table[ref].properties[property]));
  }
}
