/** The association records that many_to_many.py, one_to_many.py and one_to_one.py write to CSV:
    thirteen columns, all constant except the two global ids and the target asset type. */
module AssociationRecords {

  datatype Association = Association(
    associationType: string,
    fromFeatureClass: string,
    fromAssetGroup: string,
    fromAssetType: string,
    fromGlobalId: string,
    fromTerminal: string,
    toFeatureClass: string,
    toAssetGroup: string,
    toAssetType: string,
    toGlobalId: string,
    toTerminal: string,
    isContentVisible: string,
    percentAlong: string)

  /** The target asset type of the many-to-many and one-to-many records. */
  const LineEndType: string := "Line End Type"

  /** The target asset type of the one-to-one records. */
  const OverheadLineEndMv: string := "Overhead Line End MV"

  /** The record for transformer `fromId` and unit `toId`. */
  function MakeRecord(fromId: string, toId: string, toAssetType: string): (r: Association)
    ensures r.fromGlobalId == fromId && r.toGlobalId == toId && r.toAssetType == toAssetType
    ensures r.associationType == "Containment" && r.fromFeatureClass == "ElectricDevice"
    ensures r.fromAssetGroup == "Medium Voltage Transformer" && r.fromAssetType == "Station - MV->LV"
    ensures r.toFeatureClass == "ElectricJunctionObject" && r.toAssetGroup == "Medium Voltage Line End"
    ensures r.isContentVisible == "TRUE"
    ensures r.fromTerminal == "" && r.toTerminal == "" && r.percentAlong == ""
  {
    Association("Containment", "ElectricDevice", "Medium Voltage Transformer", "Station - MV->LV", fromId, "",
                "ElectricJunctionObject", "Medium Voltage Line End", toAssetType, toId, "", "TRUE", "")
  }

  /** A record is determined by its two ids and its asset type. */
  lemma MakeRecordInjective(t1: string, u1: string, t2: string, u2: string, a: string)
    ensures MakeRecord(t1, u1, a) == MakeRecord(t2, u2, a) <==> t1 == t2 && u1 == u2
  {
  }

  /** The items of a Python dict from a transformer id to its list of unit ids, in dict order. */
  type UnitLists = seq<(string, seq<string>)>

  /** The total length of all unit lists. */
  function SumLengths(items: UnitLists): nat
    decreases |items|
  {
    if |items| == 0 then 0 else SumLengths(items[..|items| - 1]) + |items[|items| - 1].1|
  }

  /** The unit u is listed under transformer t. */
  predicate Listed(items: UnitLists, t: string, u: string)
  {
    exists i :: 0 <= i < |items| && items[i].0 == t && u in items[i].1
  }

  lemma ListedSnoc(items: UnitLists, t: string, u: string)
    requires |items| > 0
    ensures Listed(items, t, u) <==>
            Listed(items[..|items| - 1], t, u) || (items[|items| - 1].0 == t && u in items[|items| - 1].1)
  {
    var n := |items| - 1;
    if Listed(items, t, u) && !(items[n].0 == t && u in items[n].1) {
      var i :| 0 <= i < |items| && items[i].0 == t && u in items[i].1;
      assert items[..n][i] == items[i];
    }
    if Listed(items[..n], t, u) {
      var i :| 0 <= i < n && items[..n][i].0 == t && u in items[..n][i].1;
      assert items[i] == items[..n][i];
    }
  }
}

/** many_to_many.py: a record for a transformer and a unit only when each lists the other. */
module ManyToMany {
  import opened AssociationRecords

  datatype Outcome = Records(data: seq<Association>) | KeyError(unit: string)

  /** The inner loop over one transformer's units; a unit that is not a key of transformerUnits raises KeyError. */
  function UnitRecords(t: string, units: seq<string>, transformerUnits: map<string, seq<string>>): Outcome
    decreases |units|
  {
    if |units| == 0 then Records([])
    else
      var n := |units| - 1;
      var u := units[n];
      match UnitRecords(t, units[..n], transformerUnits)
      case KeyError(e) => KeyError(e)
      case Records(rs) =>
        if u !in transformerUnits then KeyError(u)
        else if t in transformerUnits[u] then Records(rs + [MakeRecord(t, u, LineEndType)])
        else Records(rs)
  }

  /** The outer loop over transformers.items(). */
  function Build(items: UnitLists, transformerUnits: map<string, seq<string>>): Outcome
    decreases |items|
  {
    if |items| == 0 then Records([])
    else
      var n := |items| - 1;
      match Build(items[..n], transformerUnits)
      case KeyError(e) => KeyError(e)
      case Records(rs) =>
        match UnitRecords(items[n].0, items[n].1, transformerUnits)
        case KeyError(e) => KeyError(e)
        case Records(more) => Records(rs + more)
  }

  /** One transformer: its records are exactly its back-listed units, at most one per list entry, and it
      raises exactly when some unit of its list is missing from transformerUnits. */
  lemma {:induction false} UnitRecordsSpec(t: string, units: seq<string>, transformerUnits: map<string, seq<string>>, r: Association)
    ensures UnitRecords(t, units, transformerUnits).KeyError? <==> exists j :: 0 <= j < |units| && units[j] !in transformerUnits
    ensures UnitRecords(t, units, transformerUnits).Records? ==>
              |UnitRecords(t, units, transformerUnits).data| <= |units| &&
              (r in UnitRecords(t, units, transformerUnits).data <==>
                 exists u :: u in units && t in transformerUnits[u] && r == MakeRecord(t, u, LineEndType))
    decreases |units|
  {
    if |units| > 0 {
      var n := |units| - 1;
      UnitRecordsSpec(t, units[..n], transformerUnits, r);
      assert units == units[..n] + [units[n]];
      if UnitRecords(t, units, transformerUnits).Records? {
        assert forall j :: 0 <= j < n ==> units[..n][j] in transformerUnits;
        if r in UnitRecords(t, units, transformerUnits).data && r !in UnitRecords(t, units[..n], transformerUnits).data {
          assert r == MakeRecord(t, units[n], LineEndType);
        }
      }
    }
  }

  /** A record for (t, u) is emitted iff u is listed under t and t under u; the run raises iff some listed
      unit is not a key of transformerUnits; and there are never more records than list entries. */
  lemma {:induction false} BuildSpec(items: UnitLists, transformerUnits: map<string, seq<string>>, t: string, u: string)
    ensures Build(items, transformerUnits).KeyError? <==>
            exists i, j :: 0 <= i < |items| && 0 <= j < |items[i].1| && items[i].1[j] !in transformerUnits
    ensures Build(items, transformerUnits).Records? ==>
              |Build(items, transformerUnits).data| <= SumLengths(items) &&
              (MakeRecord(t, u, LineEndType) in Build(items, transformerUnits).data <==>
                 Listed(items, t, u) && u in transformerUnits && t in transformerUnits[u])
    decreases |items|
  {
    if |items| > 0 {
      var n := |items| - 1;
      var pre := items[..n];
      BuildSpec(pre, transformerUnits, t, u);
      ListedSnoc(items, t, u);
      var rec := MakeRecord(t, u, LineEndType);
      UnitRecordsSpec(items[n].0, items[n].1, transformerUnits, rec);
      assert forall i :: 0 <= i < n ==> pre[i] == items[i];
      if Build(pre, transformerUnits).Records? && UnitRecords(items[n].0, items[n].1, transformerUnits).Records? {
        if rec in UnitRecords(items[n].0, items[n].1, transformerUnits).data {
          var v :| v in items[n].1 && items[n].0 in transformerUnits[v] && rec == MakeRecord(items[n].0, v, LineEndType);
          MakeRecordInjective(t, u, items[n].0, v, LineEndType);
        }
        if Listed(pre, t, u) {
          var i :| 0 <= i < n && pre[i].0 == t && u in pre[i].1;
          assert u in transformerUnits by {
            var j :| 0 <= j < |pre[i].1| && pre[i].1[j] == u;
          }
        }
        if items[n].0 == t && u in items[n].1 {
          var j :| 0 <= j < |items[n].1| && items[n].1[j] == u;
        }
      }
    }
  }

  /** The inner loop, appending to data. */
  method AppendUnitRecords(data: seq<Association>, t: string, units: seq<string>, transformerUnits: map<string, seq<string>>)
    returns (result: Outcome)
    ensures result == match UnitRecords(t, units, transformerUnits)
                      case Records(rs) => Records(data + rs)
                      case KeyError(e) => KeyError(e)
  {
    var appended := data;
    ghost var added: seq<Association> := [];
    var j := 0;
    while j < |units|
      invariant 0 <= j <= |units|
      invariant UnitRecords(t, units[..j], transformerUnits) == Records(added) && appended == data + added
    {
      assert units[..j + 1][..j] == units[..j];
      var eachUnit := units[j];
      if eachUnit !in transformerUnits {
        UnitRecordsErrorStays(t, units, transformerUnits, j + 1);
        return KeyError(eachUnit);
      }
      if t in transformerUnits[eachUnit] {
        appended := appended + [MakeRecord(t, eachUnit, LineEndType)];
        added := added + [MakeRecord(t, eachUnit, LineEndType)];
      }
      j := j + 1;
    }
    assert units[..j] == units;
    result := Records(appended);
  }

  lemma {:induction false} UnitRecordsErrorStays(t: string, units: seq<string>, transformerUnits: map<string, seq<string>>, j: nat)
    requires j <= |units| && UnitRecords(t, units[..j], transformerUnits).KeyError?
    ensures UnitRecords(t, units, transformerUnits) == UnitRecords(t, units[..j], transformerUnits)
    decreases |units| - j
  {
    if j < |units| {
      assert units[..j + 1][..j] == units[..j];
      UnitRecordsErrorStays(t, units, transformerUnits, j + 1);
    } else {
      assert units[..j] == units;
    }
  }

  lemma {:induction false} BuildErrorStays(items: UnitLists, transformerUnits: map<string, seq<string>>, i: nat)
    requires i <= |items| && Build(items[..i], transformerUnits).KeyError?
    ensures Build(items, transformerUnits) == Build(items[..i], transformerUnits)
    decreases |items| - i
  {
    if i < |items| {
      assert items[..i + 1][..i] == items[..i];
      BuildErrorStays(items, transformerUnits, i + 1);
    } else {
      assert items[..i] == items;
    }
  }

  /** The nested loop of many_to_many.py. */
  method BuildAssociations(transformers: UnitLists, transformerUnits: map<string, seq<string>>) returns (result: Outcome)
    ensures result == Build(transformers, transformerUnits)
  {
    var data: seq<Association> := [];
    var i := 0;
    while i < |transformers|
      invariant 0 <= i <= |transformers|
      invariant Build(transformers[..i], transformerUnits) == Records(data)
    {
      assert transformers[..i + 1][..i] == transformers[..i];
      var (transformer, transformerUnit) := transformers[i];
      var step := AppendUnitRecords(data, transformer, transformerUnit, transformerUnits);
      if step.KeyError? {
        BuildErrorStays(transformers, transformerUnits, i + 1);
        return step;
      }
      data := step.data;
      i := i + 1;
    }
    assert transformers[..i] == transformers;
    result := Records(data);
  }
}

/** one_to_many.py: a record for every unit list entry, without any check. */
module OneToMany {
  import opened AssociationRecords

  function Build(items: UnitLists): seq<Association>
    decreases |items|
  {
    if |items| == 0 then []
    else
      var n := |items| - 1;
      Build(items[..n]) + UnitRecords(items[n].0, items[n].1)
  }

  function UnitRecords(t: string, units: seq<string>): (rs: seq<Association>)
    ensures |rs| == |units|
    ensures forall j :: 0 <= j < |units| ==> rs[j] == MakeRecord(t, units[j], LineEndType)
  {
    seq(|units|, j requires 0 <= j < |units| => MakeRecord(t, units[j], LineEndType))
  }

  /** One record per list entry, duplicates included; a record for (t, u) exists iff u is listed under t. */
  lemma {:induction false} BuildSpec(items: UnitLists, t: string, u: string)
    ensures |Build(items)| == SumLengths(items)
    ensures MakeRecord(t, u, LineEndType) in Build(items) <==> Listed(items, t, u)
    decreases |items|
  {
    if |items| > 0 {
      var n := |items| - 1;
      BuildSpec(items[..n], t, u);
      ListedSnoc(items, t, u);
      var rs := UnitRecords(items[n].0, items[n].1);
      if MakeRecord(t, u, LineEndType) in rs {
        var j :| 0 <= j < |rs| && rs[j] == MakeRecord(t, u, LineEndType);
        MakeRecordInjective(t, u, items[n].0, items[n].1[j], LineEndType);
      }
      if items[n].0 == t && u in items[n].1 {
        var j :| 0 <= j < |items[n].1| && items[n].1[j] == u;
        assert rs[j] == MakeRecord(t, u, LineEndType);
      }
    }
  }

  /** The nested loop of one_to_many.py. */
  method BuildAssociations(transformers: UnitLists) returns (data: seq<Association>)
    ensures data == Build(transformers)
  {
    data := [];
    var i := 0;
    while i < |transformers|
      invariant 0 <= i <= |transformers|
      invariant data == Build(transformers[..i])
    {
      assert transformers[..i + 1][..i] == transformers[..i];
      var (transformer, transformerUnit) := transformers[i];
      ghost var before := data;
      var j := 0;
      while j < |transformerUnit|
        invariant 0 <= j <= |transformerUnit|
        invariant data == before + UnitRecords(transformer, transformerUnit[..j])
      {
        assert UnitRecords(transformer, transformerUnit[..j + 1]) ==
               UnitRecords(transformer, transformerUnit[..j]) + [MakeRecord(transformer, transformerUnit[j], LineEndType)];
        data := data + [MakeRecord(transformer, transformerUnit[j], LineEndType)];
        j := j + 1;
      }
      assert transformerUnit[..j] == transformerUnit;
      i := i + 1;
    }
    assert transformers[..i] == transformers;
  }
}

/** one_to_one.py: the i-th transformer with the i-th unit, as zip pairs them. */
module OneToOne {
  import opened AssociationRecords

  /** zip(a, b): as many pairs as the shorter list has elements. */
  function Zip<A, B>(a: seq<A>, b: seq<B>): (r: seq<(A, B)>)
    ensures |r| == if |a| <= |b| then |a| else |b|
    ensures forall i :: 0 <= i < |r| ==> r[i] == (a[i], b[i])
  {
    var n := if |a| <= |b| then |a| else |b|;
    seq(n, i requires 0 <= i < n => (a[i], b[i]))
  }

  /** Zipping back the two components of the pairs gives the pairs: nothing but truncation happens. */
  lemma ZipTruncates<A, B>(a: seq<A>, b: seq<B>)
    ensures var n := |Zip(a, b)|;
            Zip(a[..n], b[..n]) == Zip(a, b) && (|a| == n || |b| == n)
  {
  }

  /** The demonstration at the end of one_to_one.py. */
  lemma ZipDemo()
    ensures Zip(["{0001}", "{0002}", "{0003}"], ["{1001}", "{1002}", "{1003}"]) ==
            [("{0001}", "{1001}"), ("{0002}", "{1002}"), ("{0003}", "{1003}")]
  {
  }

  /** The loop of one_to_one.py: record i pairs transformers[i] with transformerUnits[i]; the longer list's
      extra elements are dropped. */
  method BuildAssociations(transformers: seq<string>, transformerUnits: seq<string>) returns (data: seq<Association>)
    ensures |data| == |Zip(transformers, transformerUnits)|
    ensures forall i :: 0 <= i < |data| ==> data[i] == MakeRecord(transformers[i], transformerUnits[i], OverheadLineEndMv)
  {
    var pairs := Zip(transformers, transformerUnits);
    data := [];
    var i := 0;
    while i < |pairs|
      invariant 0 <= i <= |pairs|
      invariant |data| == i
      invariant forall k :: 0 <= k < i ==> data[k] == MakeRecord(transformers[k], transformerUnits[k], OverheadLineEndMv)
    {
      var (transformer, transformerUnit) := pairs[i];
      data := data + [MakeRecord(transformer, transformerUnit, OverheadLineEndMv)];
      i := i + 1;
    }
  }
}
