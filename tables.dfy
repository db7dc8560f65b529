/** The tabular world the field-propagation scripts work in: cell values, rows
    as maps from field name to value, a feature class whose schema and rows are
    updated in place, and Python dictionaries with their key order. */
module Tables {
  import opened Strings

  datatype Option<T> = None | Some(value: T)

  datatype Result<T, E> = Ok(value: T) | Err(error: E)

  /** A geometry object, known only by its identity; spatial predicates on it are parameters. */
  datatype Geometry = Geometry(id: nat)

  /** A cell value: None, a Python int, a Python str, or a geometry (the SHAPE@ token). */
  datatype Value = Null | Int(i: int) | Str(s: string) | Shape(g: Geometry)

  /** A cursor row, by field name. */
  type Row = map<string, Value>

  /** A spatial predicate (within, touches, disjoint, intersects) on two SHAPE@ cells. */
  type Relation = (Value, Value) -> bool

  /** The cursor token that reads a feature's geometry; the model keeps geometry under this name. */
  const ShapeToken: string := "SHAPE@"
  const ObjectIdField: string := "OBJECTID"
  const GlobalIdField: string := "GLOBALID"

  /** The value a cursor reads from field f of row r. */
  function Get(r: Row, f: string): Value
  {
    if f in r then r[f] else Null
  }

  /** Python's str() of a cell value. A geometry's text names its identity, since
      Python's own text for it carries a memory address. */
  function ToStr(v: Value): string
  {
    match v
    case Null => "None"
    case Int(i) => IntToString(i)
    case Str(s) => s
    case Shape(g) => "<geometry " + NatToString(g.id) + ">"
  }

  /** A field of a schema: name, type and the length handed to AddField (None when no length is given). */
  datatype Field = Field(name: string, fieldType: string, length: Option<string>)

  function FieldNames(schema: seq<Field>): set<string>
    decreases |schema|
  {
    if |schema| == 0 then {} else FieldNames(schema[..|schema| - 1]) + {schema[|schema| - 1].name}
  }

  /** The names of a schema in schema order, as [f.name for f in arcpy.ListFields(fc)]. */
  function NameList(schema: seq<Field>): (names: seq<string>)
    ensures |names| == |schema|
    ensures forall i :: 0 <= i < |schema| ==> names[i] == schema[i].name
  {
    seq(|schema|, i requires 0 <= i < |schema| => schema[i].name)
  }

  lemma {:induction false} FieldNamesMember(schema: seq<Field>, n: string)
    ensures n in FieldNames(schema) <==> n in NameList(schema)
    decreases |schema|
  {
    if |schema| > 0 {
      var k := |schema| - 1;
      FieldNamesMember(schema[..k], n);
      assert NameList(schema) == NameList(schema[..k]) + [schema[k].name];
    }
  }

  /** The schema without the fields of the given name, other fields in their order. */
  function WithoutField(schema: seq<Field>, name: string): (r: seq<Field>)
    ensures FieldNames(r) == FieldNames(schema) - {name}
    decreases |schema|
  {
    if |schema| == 0 then []
    else
      var k := |schema| - 1;
      var rest := WithoutField(schema[..k], name);
      if schema[k].name == name then rest
      else
        assert (rest + [schema[k]])[..|rest|] == rest;
        rest + [schema[k]]
  }

  lemma FieldNamesAppend(schema: seq<Field>, f: Field)
    ensures FieldNames(schema + [f]) == FieldNames(schema) + {f.name}
  {
    assert (schema + [f])[..|schema|] == schema;
  }

  lemma {:induction false} FieldNamesConcat(a: seq<Field>, b: seq<Field>)
    ensures FieldNames(a + b) == FieldNames(a) + FieldNames(b)
    decreases |b|
  {
    if |b| > 0 {
      var k := |b| - 1;
      FieldNamesConcat(a, b[..k]);
      assert (a + b)[..|a + b| - 1] == a + b[..k];
    } else {
      assert a + b == a;
    }
  }

  lemma {:induction false} WithoutFieldAppend(schema: seq<Field>, f: Field)
    requires f.name !in FieldNames(schema)
    ensures WithoutField(schema + [f], f.name) == schema
  {
    assert (schema + [f])[..|schema|] == schema;
    WithoutFieldAbsent(schema, f.name);
  }

  lemma {:induction false} WithoutFieldAbsent(schema: seq<Field>, name: string)
    requires name !in FieldNames(schema)
    ensures WithoutField(schema, name) == schema
    decreases |schema|
  {
    if |schema| > 0 {
      var k := |schema| - 1;
      WithoutFieldAbsent(schema[..k], name);
      assert schema[..k] + [schema[k]] == schema;
    }
  }

  /** A feature class: its schema (as ListFields gives it) and its rows in cursor order. */
  class FeatureClass {
    var schema: seq<Field>
    var rows: seq<Row>

    /** Every row carries exactly the schema's fields. */
    ghost predicate Valid()
      reads this
    {
      forall i :: 0 <= i < |rows| ==> rows[i].Keys == FieldNames(schema)
    }

    constructor (schema: seq<Field>, rows: seq<Row>)
      requires forall i :: 0 <= i < |rows| ==> rows[i].Keys == FieldNames(schema)
      ensures Valid() && this.schema == schema && this.rows == rows
    {
      this.schema := schema;
      this.rows := rows;
    }

    predicate HasField(name: string)
      reads this
    {
      name in FieldNames(schema)
    }

    /** arcpy.AddField_management: the field is appended to the schema and every row reads None in it. */
    method AddField(f: Field)
      requires Valid() && !HasField(f.name)
      modifies this
      ensures Valid()
      ensures schema == old(schema) + [f]
      ensures |rows| == |old(rows)|
      ensures forall i :: 0 <= i < |rows| ==> rows[i] == old(rows)[i][f.name := Null]
    {
      FieldNamesAppend(schema, f);
      var rs := rows;
      schema := schema + [f];
      rows := seq(|rs|, i requires 0 <= i < |rs| => rs[i][f.name := Null]);
    }

    /** cursor.updateRow(row) on row i: the row is replaced by one with the same fields. */
    method UpdateRow(i: nat, r: Row)
      requires Valid() && i < |rows| && r.Keys == rows[i].Keys
      modifies this
      ensures Valid() && schema == old(schema)
      ensures rows == old(rows)[i := r]
    {
      rows := rows[i := r];
    }

    /** arcpy.DeleteField_management: the field leaves the schema and every row. */
    method DeleteField(name: string)
      requires Valid()
      modifies this
      ensures Valid()
      ensures schema == WithoutField(old(schema), name)
      ensures |rows| == |old(rows)|
      ensures forall i :: 0 <= i < |rows| ==> rows[i] == old(rows)[i] - {name}
    {
      var rs := rows;
      schema := WithoutField(schema, name);
      rows := seq(|rs|, i requires 0 <= i < |rs| => rs[i] - {name});
    }
  }

  /** Keys in order of first appearance, each once: the key order of a Python dict filled from ks. */
  function FirstAppearance<K(==)>(ks: seq<K>): seq<K>
    decreases |ks|
  {
    if |ks| == 0 then []
    else
      var p := FirstAppearance(ks[..|ks| - 1]);
      if ks[|ks| - 1] in p then p else p + [ks[|ks| - 1]]
  }

  /** Index of the first occurrence of k in ks. */
  function FirstIndex<K(==)>(ks: seq<K>, k: K): (i: nat)
    requires k in ks
    ensures i < |ks| && ks[i] == k && k !in ks[..i]
  {
    if ks[0] == k then 0 else 1 + FirstIndex(ks[1..], k)
  }

  lemma FirstIndexPrefix<K>(ks: seq<K>, n: nat, k: K)
    requires n <= |ks| && k in ks[..n]
    ensures FirstIndex(ks, k) == FirstIndex(ks[..n], k)
  {
    var i := FirstIndex(ks[..n], k);
    var j := FirstIndex(ks, k);
    assert ks[..n][..i] == ks[..i];
    assert ks[..n][i] == ks[i];
  }

  predicate Distinct<K(==)>(s: seq<K>)
  {
    forall i, j :: 0 <= i < j < |s| ==> s[i] != s[j]
  }

  /** FirstAppearance lists every key of ks exactly once, ordered by where each key first occurs. */
  lemma {:induction false} FirstAppearanceSpec<K>(ks: seq<K>)
    ensures var p := FirstAppearance(ks);
            Distinct(p) &&
            (forall k :: k in p <==> k in ks) &&
            (forall i, j :: 0 <= i < j < |p| ==> FirstIndex(ks, p[i]) < FirstIndex(ks, p[j]))
    decreases |ks|
  {
    if |ks| > 0 {
      var n := |ks| - 1;
      var pre := ks[..n];
      var x := ks[n];
      FirstAppearanceSpec(pre);
      var p := FirstAppearance(pre);
      assert ks == pre + [x];
      forall k | k in pre ensures FirstIndex(ks, k) == FirstIndex(pre, k) {
        FirstIndexPrefix(ks, n, k);
      }
      if x !in p {
        assert x !in pre;
        assert FirstIndex(ks, x) == n by {
          assert ks[..n] == pre;
        }
        var q := p + [x];
        forall i, j | 0 <= i < j < |q| ensures FirstIndex(ks, q[i]) < FirstIndex(ks, q[j]) {
          assert q[i] == p[i];
          if j < |p| {
            assert q[j] == p[j];
            assert q[j] in pre;
          }
        }
      } else {
        forall i, j | 0 <= i < j < |p| ensures FirstIndex(ks, p[i]) < FirstIndex(ks, p[j]) {
          assert p[i] in pre && p[j] in pre;
        }
      }
    }
  }

  /** A Python dict: its keys in insertion order and its contents. */
  datatype Dict<K, V> = Dict(keys: seq<K>, values: map<K, V>)

  ghost predicate DictValid<K, V>(d: Dict<K, V>)
  {
    Distinct(d.keys) && d.values.Keys == (set k | k in d.keys)
  }

  /** d[k] = v: a new key goes to the end of the key order, a known key keeps its place. */
  function Put<K(==), V>(d: Dict<K, V>, k: K, v: V): Dict<K, V>
  {
    if k in d.values then Dict(d.keys, d.values[k := v]) else Dict(d.keys + [k], d.values[k := v])
  }

  function Firsts<K(==), V>(pairs: seq<(K, V)>): (ks: seq<K>)
    ensures |ks| == |pairs|
    ensures forall i :: 0 <= i < |pairs| ==> ks[i] == pairs[i].0
  {
    seq(|pairs|, i requires 0 <= i < |pairs| => pairs[i].0)
  }

  /** {k: v for (k, v) in pairs}. */
  function DictFromPairs<K(==), V>(pairs: seq<(K, V)>): Dict<K, V>
    decreases |pairs|
  {
    if |pairs| == 0 then Dict([], map[])
    else
      var last := pairs[|pairs| - 1];
      Put(DictFromPairs(pairs[..|pairs| - 1]), last.0, last.1)
  }

  /** A dict comprehension keeps its keys distinct and in first-appearance order. */
  lemma {:induction false} DictFromPairsKeys<K, V>(pairs: seq<(K, V)>)
    ensures DictValid(DictFromPairs(pairs))
    ensures DictFromPairs(pairs).keys == FirstAppearance(Firsts(pairs))
    decreases |pairs|
  {
    if |pairs| > 0 {
      var n := |pairs| - 1;
      DictFromPairsKeys(pairs[..n]);
      assert Firsts(pairs)[..n] == Firsts(pairs[..n]);
      var d := DictFromPairs(pairs[..n]);
      var d' := DictFromPairs(pairs);
      if pairs[n].0 !in d.values {
        forall i, j | 0 <= i < j < |d'.keys| ensures d'.keys[i] != d'.keys[j] {
          assert d'.keys[i] == d.keys[i];
          if j < |d.keys| {
            assert d'.keys[j] == d.keys[j];
          }
        }
      }
    }
  }

  /** In a dict comprehension each key holds the value of the last pair with that key. */
  lemma {:induction false} DictFromPairsLastWins<K, V>(pairs: seq<(K, V)>, j: nat)
    requires j < |pairs|
    requires forall i :: j < i < |pairs| ==> pairs[i].0 != pairs[j].0
    ensures pairs[j].0 in DictFromPairs(pairs).values
    ensures DictFromPairs(pairs).values[pairs[j].0] == pairs[j].1
    decreases |pairs|
  {
    var n := |pairs| - 1;
    if j < n {
      DictFromPairsLastWins(pairs[..n], j);
      assert pairs[..n][j] == pairs[j];
    }
  }
}
