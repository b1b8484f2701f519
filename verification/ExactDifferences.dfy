/**
 Comparing a reviewed manifest with an actual one, key by key: nothing is
 reported exactly when the two are equal in the sense of Python's `==`.
 */
module ExactDifferences {
  import opened Numerals

  /** A JSON value.  Numbers that are not integers are finite. */
  datatype Value =
    | Null | Bool(b: bool) | Int(n: int) | Float(r: real) | Text(s: string)
    | List(items: seq<Value>) | Dict(entries: map<string, Value>)

  predicate Numeric(v: Value) {
    v.Bool? || v.Int? || v.Float?
  }

  function Number(v: Value): real
    requires Numeric(v)
  {
    match v
    case Bool(b) => if b then 1.0 else 0.0
    case Int(n) => n as real
    case Float(r) => r
  }

  /** Python's `==`: numbers of any type by value, containers by their contents. */
  predicate Equal(a: Value, b: Value)
    decreases a
  {
    if Numeric(a) && Numeric(b) then Number(a) == Number(b)
    else if a.List? && b.List? then
      |a.items| == |b.items| && forall k :: 0 <= k < |a.items| ==> Equal(a.items[k], b.items[k])
    else if a.Dict? && b.Dict? then
      a.entries.Keys == b.entries.Keys && forall k :: k in a.entries && k in b.entries ==> Equal(a.entries[k], b.entries[k])
    else (a.Null? && b.Null?) || (a.Text? && b.Text? && a.s == b.s)
  }

  lemma {:induction false} EqualIsReflexive(a: Value)
    ensures Equal(a, a)
    decreases a
  {
    if a.List? {
      forall k | 0 <= k < |a.items| ensures Equal(a.items[k], a.items[k]) { EqualIsReflexive(a.items[k]); }
    } else if a.Dict? {
      forall k | k in a.entries ensures Equal(a.entries[k], a.entries[k]) { EqualIsReflexive(a.entries[k]); }
    }
  }

  lemma {:induction false} EqualIsSymmetric(a: Value, b: Value)
    requires Equal(a, b)
    ensures Equal(b, a)
    decreases a
  {
    if a.List? {
      forall k | 0 <= k < |a.items| ensures Equal(b.items[k], a.items[k]) { EqualIsSymmetric(a.items[k], b.items[k]); }
    } else if a.Dict? {
      forall k | k in a.entries ensures Equal(b.entries[k], a.entries[k]) { EqualIsSymmetric(a.entries[k], b.entries[k]); }
    }
  }

  lemma {:induction false} EqualIsTransitive(a: Value, b: Value, c: Value)
    requires Equal(a, b) && Equal(b, c)
    ensures Equal(a, c)
    decreases a
  {
    if a.List? {
      forall k | 0 <= k < |a.items| ensures Equal(a.items[k], c.items[k]) {
        EqualIsTransitive(a.items[k], b.items[k], c.items[k]);
      }
    } else if a.Dict? {
      forall k | k in a.entries ensures Equal(a.entries[k], c.entries[k]) {
        EqualIsTransitive(a.entries[k], b.entries[k], c.entries[k]);
      }
    }
  }

  /** A value with every number in it, flags and integers too, written as one type. */
  function Normal(v: Value): Value
    decreases v
  {
    match v
    case Bool(b) => Float(if b then 1.0 else 0.0)
    case Int(n) => Float(n as real)
    case List(items) => List(seq(|items|, k requires 0 <= k < |items| => Normal(items[k])))
    case Dict(entries) => Dict(map k | k in entries :: Normal(entries[k]))
    case _ => v
  }

  lemma NormalOfList(a: seq<Value>, b: seq<Value>)
    ensures Normal(List(a)) == Normal(List(b)) <==> |a| == |b| && forall k :: 0 <= k < |a| && k < |b| ==> Normal(a[k]) == Normal(b[k])
  {
    var m, n := Normal(List(a)).items, Normal(List(b)).items;
    assert forall k :: 0 <= k < |a| ==> m[k] == Normal(a[k]);
    assert forall k :: 0 <= k < |b| ==> n[k] == Normal(b[k]);
    if m == n { assert forall k :: 0 <= k < |a| ==> m[k] == n[k]; }
  }

  lemma NormalOfDict(a: map<string, Value>, b: map<string, Value>)
    ensures Normal(Dict(a)) == Normal(Dict(b)) <==>
              a.Keys == b.Keys && forall k :: k in a && k in b ==> Normal(a[k]) == Normal(b[k])
  {
    var m, n := Normal(Dict(a)).entries, Normal(Dict(b)).entries;
    assert m.Keys == a.Keys && n.Keys == b.Keys;
    assert forall k :: k in a ==> m[k] == Normal(a[k]);
    assert forall k :: k in b ==> n[k] == Normal(b[k]);
  }

  /** Two values are equal exactly when they are the same up to the types of their numbers. */
  lemma {:induction false} EqualIffSameNormal(a: Value, b: Value)
    ensures Equal(a, b) <==> Normal(a) == Normal(b)
    decreases a
  {
    if a.List? && b.List? {
      NormalOfList(a.items, b.items);
      forall k | 0 <= k < |a.items| && k < |b.items|
        ensures Equal(a.items[k], b.items[k]) <==> Normal(a.items[k]) == Normal(b.items[k])
      {
        EqualIffSameNormal(a.items[k], b.items[k]);
      }
    } else if a.Dict? && b.Dict? {
      NormalOfDict(a.entries, b.entries);
      forall k | k in a.entries && k in b.entries
        ensures Equal(a.entries[k], b.entries[k]) <==> Normal(a.entries[k]) == Normal(b.entries[k])
      {
        EqualIffSameNormal(a.entries[k], b.entries[k]);
      }
    }
  }

  // ------------------------------------------------------------------ //
  // The walk
  // ------------------------------------------------------------------ //

  /** What is reported: a place and counts, never a value. */
  datatype Difference =
    | MissingKeys(path: string, count: nat)
    | UnexpectedKeys(path: string, count: nat)
    | Contents(path: string, missing: nat, unexpected: nat)
    | OrderedContent(path: string)
    | ReviewedValue(path: string)

  predicate Ascending(keys: seq<string>) {
    forall i, j :: 0 <= i < j < |keys| ==> Less(keys[i], keys[j])
  }

  method SortedKeys(keys: set<string>) returns (sorted: seq<string>)
    ensures Ascending(sorted) && forall k :: k in sorted <==> k in keys
  {
    sorted := [];
    var todo := keys;
    while todo != {}
      invariant todo <= keys && Ascending(sorted) && forall k :: k in sorted <==> k in keys - todo
    {
      var k :| k in todo;
      sorted := InsertKey(sorted, k);
      todo := todo - {k};
    }
  }

  method InsertKey(keys: seq<string>, x: string) returns (r: seq<string>)
    requires Ascending(keys) && x !in keys
    ensures Ascending(r) && forall k :: k in r <==> k in keys || k == x
  {
    var p := 0;
    while p < |keys| && Less(keys[p], x)
      invariant p <= |keys| && forall k :: 0 <= k < p ==> Less(keys[k], x)
    {
      p := p + 1;
    }
    if p < |keys| {
      assert keys[p] in keys;
      LessTrichotomy(keys[p], x);
      forall k | p < k < |keys| ensures Less(x, keys[k]) { LessTransitive(x, keys[p], keys[k]); }
    }
    r := keys[..p] + [x] + keys[p..];
    Inserted(keys, p, x);
  }

  lemma Inserted(keys: seq<string>, p: nat, x: string)
    requires p <= |keys|
    ensures forall k :: k in keys[..p] + [x] + keys[p..] <==> k in keys || k == x
  {
    assert keys == keys[..p] + keys[p..];
  }

  /** One value for all that are equal and can be put in a set. */
  function Canonical(v: Value): Value {
    if Numeric(v) then Float(Number(v)) else v
  }

  predicate Hashable(items: seq<Value>) {
    forall k :: 0 <= k < |items| ==> !items[k].List? && !items[k].Dict?
  }

  function Contained(items: seq<Value>): set<Value> {
    set v <- items :: Canonical(v)
  }

  /** `sorted` accepts at most one value, or values of one kind. */
  predicate Sortable(values: set<Value>) {
    |values| <= 1 || (forall v :: v in values ==> v.Text?) || (forall v :: v in values ==> Numeric(v))
  }

  /** How two lists that differ are reported. */
  function ListDifference(expected: seq<Value>, actual: seq<Value>, path: string): Difference {
    var missing, extra := Contained(expected) - Contained(actual), Contained(actual) - Contained(expected);
    if !Hashable(expected) || !Hashable(actual) || !Sortable(missing) || !Sortable(extra) then OrderedContent(path)
    else if missing != {} || extra != {} then Contents(path, |missing|, |extra|)
    else OrderedContent(path)
  }

  lemma CanonicalIff(a: Value, b: Value)
    requires !a.List? && !a.Dict? && !b.List? && !b.Dict?
    ensures Canonical(a) == Canonical(b) <==> Equal(a, b)
  {
  }

  /** An item of `a` that equals none of `b`. */
  predicate Lacks(a: seq<Value>, b: seq<Value>) {
    exists i :: 0 <= i < |a| && forall j :: 0 <= j < |b| ==> !Equal(a[i], b[j])
  }

  lemma LacksIff(a: seq<Value>, b: seq<Value>)
    requires Hashable(a) && Hashable(b)
    ensures Contained(a) - Contained(b) != {} <==> Lacks(a, b)
  {
    forall i, j | 0 <= i < |a| && 0 <= j < |b| ensures Canonical(a[i]) == Canonical(b[j]) <==> Equal(a[i], b[j]) {
      CanonicalIff(a[i], b[j]);
    }
    if Lacks(a, b) {
      var i :| 0 <= i < |a| && forall j :: 0 <= j < |b| ==> !Equal(a[i], b[j]);
      assert a[i] in a && Canonical(a[i]) in Contained(a) - Contained(b);
    }
    if Contained(a) - Contained(b) != {} {
      var v :| v in Contained(a) - Contained(b);
      var i :| 0 <= i < |a| && Canonical(a[i]) == v;
      forall j | 0 <= j < |b| ensures !Equal(a[i], b[j]) { assert b[j] in b; }
    }
  }

  /** Any two of the values can be put in order: both texts or both numbers. */
  predicate Comparable(values: set<Value>) {
    forall a, b :: a in values && b in values && a != b ==>
      (a.Text? && b.Text?) || ((a.Bool? || a.Int? || a.Float?) && (b.Bool? || b.Int? || b.Float?))
  }

  lemma SortableIff(values: set<Value>)
    ensures Sortable(values) <==> Comparable(values)
  {
    if |values| <= 1 {
      forall a, b | a in values && b in values ensures a == b {
        if a != b { assert {a, b} <= values && |{a, b}| == 2; SubsetIsSmaller({a, b}, values); }
      }
    } else if Comparable(values) {
      var a :| a in values;
      assert |{a}| == 1 && values != {a};
      var b :| b in values && b != a;
      assert forall v :: v in values && v != a ==> (v.Text? <==> a.Text?) && (Numeric(v) <==> Numeric(a)) && (v.Text? || Numeric(v));
    }
  }

  lemma SubsetIsSmaller(a: set<Value>, b: set<Value>)
    requires a <= b
    ensures |a| <= |b|
  {
    assert b == a + (b - a);
  }

  /**
   Two lists are reported as differing in their contents exactly if they hold plain
   values only, one has an item that equals none of the other's, and the values each
   lacks can be put in order; otherwise their order is reported.
   */
  lemma ContentsIff(expected: seq<Value>, actual: seq<Value>, path: string)
    ensures ListDifference(expected, actual, path).Contents? <==>
              && (forall v :: v in expected + actual ==> !v.List? && !v.Dict?)
              && Comparable(Contained(expected) - Contained(actual)) && Comparable(Contained(actual) - Contained(expected))
              && (Lacks(expected, actual) || Lacks(actual, expected))
    ensures !ListDifference(expected, actual, path).Contents? ==> ListDifference(expected, actual, path) == OrderedContent(path)
  {
    SortableIff(Contained(expected) - Contained(actual));
    SortableIff(Contained(actual) - Contained(expected));
    if Hashable(expected) && Hashable(actual) {
      LacksIff(expected, actual);
      LacksIff(actual, expected);
    } else {
      var k :| (0 <= k < |expected| && (expected[k].List? || expected[k].Dict?)) || (0 <= k < |actual| && (actual[k].List? || actual[k].Dict?));
      assert (k < |expected| && expected[k] in expected + actual) || (k < |actual| && actual[k] in expected + actual);
    }
  }

  predicate EqualAt(a: map<string, Value>, b: map<string, Value>, key: string) {
    key in a && key in b ==> Equal(a[key], b[key])
  }

  predicate Agree(a: map<string, Value>, b: map<string, Value>, keys: seq<string>) {
    forall j :: 0 <= j < |keys| ==> EqualAt(a, b, keys[j])
  }

  lemma OneMoreAgrees(a: map<string, Value>, b: map<string, Value>, keys: seq<string>, i: nat)
    requires i < |keys|
    ensures Agree(a, b, keys[..i + 1]) <==> Agree(a, b, keys[..i]) && EqualAt(a, b, keys[i])
  {
    assert keys[..i + 1] == keys[..i] + [keys[i]];
    assert forall j :: 0 <= j < i ==> keys[..i + 1][j] == keys[..i][j];
    assert keys[..i + 1][i] == keys[i];
  }

  lemma EqualAtCommon(a: Value, b: Value, common: seq<string>)
    requires a.Dict? && b.Dict? && forall k :: k in common <==> k in a.entries && k in b.entries
    ensures Equal(a, b) <==> a.entries.Keys == b.entries.Keys && Agree(a.entries, b.entries, common)
  {
    if Agree(a.entries, b.entries, common) {
      forall k | k in a.entries && k in b.entries ensures Equal(a.entries[k], b.entries[k]) {
        var j :| 0 <= j < |common| && common[j] == k;
        assert EqualAt(a.entries, b.entries, common[j]);
      }
    }
  }

  /** What is reported about the keys of two dictionaries, as counts. */
  function KeyDifferences(expected: set<string>, actual: set<string>, path: string): seq<Difference> {
    (if expected <= actual then [] else [MissingKeys(path, |expected - actual|)])
    + (if actual <= expected then [] else [UnexpectedKeys(path, |actual - expected|)])
  }

  predicate Below(path: string, errors: seq<Difference>) {
    forall e :: e in errors ==> path <= e.path
  }

  lemma BelowKey(path: string, key: string, errors: seq<Difference>)
    requires Below(path + "." + key, errors)
    ensures Below(path, errors)
  {
    forall e | e in errors ensures path <= e.path {
      assert path <= path + "." + key <= e.path;
    }
  }

  ghost predicate Placed(path: string, key: string, errors: seq<Difference>) {
    exists e :: e in errors && path + "." + key <= e.path
  }

  lemma PlacedThere(path: string, key: string, errors: seq<Difference>, nested: seq<Difference>)
    requires Below(path + "." + key, nested)
    ensures nested != [] ==> Placed(path, key, errors + nested)
    ensures forall k :: Placed(path, k, errors) ==> Placed(path, k, errors + nested)
  {
    if nested != [] { assert nested[0] in errors + nested; }
    forall k | Placed(path, k, errors) ensures Placed(path, k, errors + nested) {
      var e :| e in errors && path + "." + k <= e.path;
      assert e in errors + nested;
    }
  }

  /**
   Nothing is reported exactly when the two values are equal, however deep they go.
   What is reported lies at or below the path given, and something is reported below
   every key under which the values differ.
   */
  method Differences(expected: Value, actual: Value, path: string) returns (errors: seq<Difference>)
    ensures errors == [] <==> Equal(expected, actual)
    ensures Below(path, errors)
    ensures expected.Dict? && actual.Dict? ==>
              && KeyDifferences(expected.entries.Keys, actual.entries.Keys, path) <= errors
              && forall k :: k in expected.entries && k in actual.entries && !Equal(expected.entries[k], actual.entries[k]) ==>
                   Placed(path, k, errors)
    ensures !(expected.Dict? && actual.Dict?) && !Equal(expected, actual) ==>
              errors == [if expected.List? && actual.List? then ListDifference(expected.items, actual.items, path)
                         else ReviewedValue(path)]
    decreases expected, 2
  {
    errors := [];
    if expected.Dict? && actual.Dict? {
      errors := DictDifferences(expected, actual, path);
    } else if !Equal(expected, actual) {
      if expected.List? && actual.List? {
        errors := [ListDifference(expected.items, actual.items, path)];
      } else {
        errors := [ReviewedValue(path)];
      }
    }
  }

  /** Under every key at which two dictionaries differ something is reported. */
  ghost predicate EachPlaced(a: map<string, Value>, b: map<string, Value>, keys: seq<string>, path: string, errors: seq<Difference>) {
    forall j :: 0 <= j < |keys| && !EqualAt(a, b, keys[j]) ==> Placed(path, keys[j], errors)
  }

  lemma OneMorePlaced(
    a: map<string, Value>, b: map<string, Value>, keys: seq<string>, i: nat, path: string, errors: seq<Difference>,
    nested: seq<Difference>)
    requires i < |keys| && Below(path, errors) && EachPlaced(a, b, keys[..i], path, errors)
    requires Below(path + "." + keys[i], nested) && (EqualAt(a, b, keys[i]) || nested != [])
    ensures Below(path, errors + nested) && EachPlaced(a, b, keys[..i + 1], path, errors + nested)
  {
    PlacedThere(path, keys[i], errors, nested);
    BelowKey(path, keys[i], nested);
    assert forall j :: 0 <= j < i ==> keys[..i + 1][j] == keys[..i][j];
  }

  /** The values under each of some common keys. */
  method CommonDifferences(expected: Value, actual: Value, common: seq<string>, path: string) returns (errors: seq<Difference>)
    requires expected.Dict? && actual.Dict? && forall k :: k in common ==> k in expected.entries && k in actual.entries
    ensures errors == [] <==> Agree(expected.entries, actual.entries, common)
    ensures Below(path, errors) && EachPlaced(expected.entries, actual.entries, common, path, errors)
    decreases expected, 0
  {
    errors := [];
    var a, b := expected.entries, actual.entries;
    for i := 0 to |common|
      invariant errors == [] <==> Agree(a, b, common[..i])
      invariant Below(path, errors) && EachPlaced(a, b, common[..i], path, errors)
    {
      var key := common[i];
      assert key in common;
      var nested := Differences(a[key], b[key], path + "." + key);
      OneMorePlaced(a, b, common, i, path, errors, nested);
      OneMoreAgrees(a, b, common, i);
      errors := errors + nested;
    }
    assert common[..|common|] == common;
  }

  lemma NoneLeft(a: set<string>, b: set<string>)
    ensures a - b == {} <==> a <= b
  {
    forall k | k in a && a - b == {} ensures k in b { assert k !in a - b; }
  }

  method CountKeys(expected: set<string>, actual: set<string>, path: string) returns (errors: seq<Difference>)
    ensures errors == KeyDifferences(expected, actual, path)
  {
    errors := [];
    var missing, extra := expected - actual, actual - expected;
    NoneLeft(expected, actual);
    NoneLeft(actual, expected);
    if missing != {} { errors := errors + [MissingKeys(path, |missing|)]; }
    if extra != {} { errors := errors + [UnexpectedKeys(path, |extra|)]; }
  }

  lemma KeyDifferencesIff(expected: set<string>, actual: set<string>, path: string)
    ensures KeyDifferences(expected, actual, path) == [] <==> expected == actual
    ensures Below(path, KeyDifferences(expected, actual, path))
  {
  }

  lemma PlacedInAll(path: string, key: string, first: seq<Difference>, errors: seq<Difference>)
    requires Placed(path, key, errors)
    ensures Placed(path, key, first + errors)
  {
    var e :| e in errors && path + "." + key <= e.path;
    assert e in first + errors;
  }

  lemma PlacedAtKey(a: map<string, Value>, b: map<string, Value>, common: seq<string>, path: string, errors: seq<Difference>, key: string)
    requires EachPlaced(a, b, common, path, errors) && key in common && key in a && key in b && !Equal(a[key], b[key])
    ensures Placed(path, key, errors)
  {
    var j :| 0 <= j < |common| && common[j] == key;
    assert !EqualAt(a, b, common[j]);
  }

  method DictDifferences(expected: Value, actual: Value, path: string) returns (errors: seq<Difference>)
    requires expected.Dict? && actual.Dict?
    ensures errors == [] <==> Equal(expected, actual)
    ensures Below(path, errors) && KeyDifferences(expected.entries.Keys, actual.entries.Keys, path) <= errors
    ensures forall k :: k in expected.entries && k in actual.entries && !Equal(expected.entries[k], actual.entries[k]) ==>
              Placed(path, k, errors)
    decreases expected, 1
  {
    var a, b := expected.entries, actual.entries;
    var byKeys := CountKeys(a.Keys, b.Keys, path);
    KeyDifferencesIff(a.Keys, b.Keys, path);
    var common := SortedKeys(a.Keys * b.Keys);
    EqualAtCommon(expected, actual, common);
    var nested := CommonDifferences(expected, actual, common, path);
    forall k | k in a && k in b && !Equal(a[k], b[k]) ensures Placed(path, k, byKeys + nested) {
      PlacedAtKey(a, b, common, path, nested, k);
      PlacedInAll(path, k, byKeys, nested);
    }
    errors := byKeys + nested;
  }

  // ------------------------------------------------------------------ //
  // How exact that is
  // ------------------------------------------------------------------ //

  /** Every number in the value is of one type, so that equal numbers are one number. */
  predicate Integral(v: Value)
    decreases v
  {
    match v
    case Bool(_) => false
    case Float(_) => false
    case List(items) => forall k :: 0 <= k < |items| ==> Integral(items[k])
    case Dict(entries) => forall k :: k in entries ==> Integral(entries[k])
    case _ => true
  }

  /** Between values whose numbers are all integers, equal is identical. */
  lemma {:induction false} IntegralEqualIsSame(a: Value, b: Value)
    requires Integral(a) && Integral(b)
    ensures Equal(a, b) <==> a == b
    decreases a
  {
    EqualIsReflexive(a);
    if Equal(a, b) {
      if a.List? {
        forall k | 0 <= k < |a.items| ensures a.items[k] == b.items[k] { IntegralEqualIsSame(a.items[k], b.items[k]); }
        assert a.items == b.items;
      } else if a.Dict? {
        forall k | k in a.entries ensures a.entries[k] == b.entries[k] { IntegralEqualIsSame(a.entries[k], b.entries[k]); }
        assert a.entries == b.entries;
      }
    }
  }

  /** In general it is not: a flag where a count was reviewed is not reported. */
  lemma FlagPassesForCount()
    ensures var count, flag := Dict(map["schema_version" := Int(1)]), Dict(map["schema_version" := Bool(true)]);
            count != flag && Equal(count, flag)
  {
    var count, flag := map["schema_version" := Int(1)], map["schema_version" := Bool(true)];
    assert count["schema_version"] == Int(1) && flag["schema_version"] == Bool(true);
    assert Equal(Dict(count), Dict(flag));
  }
}
