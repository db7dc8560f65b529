/** The two operations in which import_py_file_mainlogic_for_toolbox.py differs from the toolbox:
    voltage propagation where the first source layer and its first feature win and only empty
    voltages are filled, and the MIG_ISSOURCE rule without the voltage test. */
module MainLogic {
  import opened Strings
  import opened Tables
  import opened Propagation
  import UpdateFieldsToolbox

  // ---------------------------------------------------------------- update_voltage_from_multiple_sources

  /** for target_id in intersecting_ids: if target_id not in voltage_updates: voltage_updates[target_id] = voltage */
  function PutAbsent(m: map<Value, Value>, ids: seq<Value>, v: Value): map<Value, Value>
    decreases |ids|
  {
    if |ids| == 0 then m
    else
      var r := PutAbsent(m, ids[..|ids| - 1], v);
      if ids[|ids| - 1] in r then r else r[ids[|ids| - 1] := v]
  }

  /** The loop over the source cursor, every voltage offered to every collected id. */
  function PutEachAbsent(m: map<Value, Value>, ids: seq<Value>, voltages: seq<Value>): map<Value, Value>
    decreases |voltages|
  {
    if |voltages| == 0 then m
    else PutAbsent(PutEachAbsent(m, ids, voltages[..|voltages| - 1]), ids, voltages[|voltages| - 1])
  }

  /** voltage_updates after all source layers, in list order; the ids come from the keys of the
      intersecting_ids dict, so in first-appearance order. */
  function FirstWinsUpdates(target: seq<Row>, sources: seq<seq<Row>>, sourceField: string, intersects: Relation)
    : map<Value, Value>
    decreases |sources|
  {
    if |sources| == 0 then map[]
    else
      var layer := sources[|sources| - 1];
      PutEachAbsent(FirstWinsUpdates(target, sources[..|sources| - 1], sourceField, intersects),
                    FirstAppearance(SelectedIds(target, layer, intersects)), FieldValues(layer, sourceField))
  }

  lemma {:induction false} PutAbsentEffect(m: map<Value, Value>, ids: seq<Value>, v: Value, x: Value)
    ensures x in PutAbsent(m, ids, v) <==> x in m || x in ids
    ensures x in PutAbsent(m, ids, v) ==> PutAbsent(m, ids, v)[x] == if x in m then m[x] else v
    decreases |ids|
  {
    if |ids| > 0 {
      var n := |ids| - 1;
      PutAbsentEffect(m, ids[..n], v, x);
      assert ids == ids[..n] + [ids[n]];
    }
  }

  lemma {:induction false} PutEachAbsentEffect(m: map<Value, Value>, ids: seq<Value>, voltages: seq<Value>, x: Value)
    ensures x in PutEachAbsent(m, ids, voltages) <==> x in m || (x in ids && |voltages| > 0)
    ensures x in PutEachAbsent(m, ids, voltages) ==>
              PutEachAbsent(m, ids, voltages)[x] == if x in m then m[x] else voltages[0]
    decreases |voltages|
  {
    if |voltages| > 0 {
      var n := |voltages| - 1;
      PutEachAbsentEffect(m, ids, voltages[..n], x);
      PutAbsentEffect(PutEachAbsent(m, ids, voltages[..n]), ids, voltages[n], x);
    }
  }

  /** Some source layer feeds the id: it has features and its selection holds the id. */
  predicate CollectedBySome(target: seq<Row>, sources: seq<seq<Row>>, intersects: Relation, x: Value)
  {
    exists i :: 0 <= i < |sources| && Feeds(target, sources[i], intersects, x)
  }

  lemma CollectedBySnoc(target: seq<Row>, sources: seq<seq<Row>>, intersects: Relation, x: Value)
    requires |sources| > 0
    ensures CollectedBySome(target, sources, intersects, x) <==>
            CollectedBySome(target, sources[..|sources| - 1], intersects, x) ||
            Feeds(target, sources[|sources| - 1], intersects, x)
  {
    var n := |sources| - 1;
    if i :| 0 <= i < |sources| && Feeds(target, sources[i], intersects, x) {
      if i < n {
        assert sources[..n][i] == sources[i];
      }
    }
    if i :| 0 <= i < n && Feeds(target, sources[..n][i], intersects, x) {
      assert sources[i] == sources[..n][i];
    }
  }

  /** An id gets an entry exactly when some source layer feeds it. */
  lemma {:induction false} FirstWinsKeys(target: seq<Row>, sources: seq<seq<Row>>, sourceField: string,
                                         intersects: Relation, x: Value)
    ensures x in FirstWinsUpdates(target, sources, sourceField, intersects) <==> CollectedBySome(target, sources, intersects, x)
    decreases |sources|
  {
    if |sources| > 0 {
      var n := |sources| - 1;
      var layer := sources[n];
      var ids := SelectedIds(target, layer, intersects);
      FirstWinsKeys(target, sources[..n], sourceField, intersects, x);
      FirstAppearanceSpec(ids);
      PutEachAbsentEffect(FirstWinsUpdates(target, sources[..n], sourceField, intersects), FirstAppearance(ids),
                          FieldValues(layer, sourceField), x);
      CollectedBySnoc(target, sources, intersects, x);
    }
  }

  /** A target takes the voltage of the FIRST feature of the FIRST source layer, in list order, that
      feeds it; later layers never replace it. */
  lemma {:induction false} FirstWinsVoltage(target: seq<Row>, sources: seq<seq<Row>>, sourceField: string,
                                            intersects: Relation, j: nat, x: Value)
    requires j < |sources| && Feeds(target, sources[j], intersects, x)
    requires forall i :: 0 <= i < j ==> !Feeds(target, sources[i], intersects, x)
    ensures x in FirstWinsUpdates(target, sources, sourceField, intersects)
    ensures FirstWinsUpdates(target, sources, sourceField, intersects)[x] == Get(sources[j][0], sourceField)
    decreases |sources|
  {
    var n := |sources| - 1;
    var pre := sources[..n];
    var layer := sources[n];
    var ids := SelectedIds(target, layer, intersects);
    FirstAppearanceSpec(ids);
    var prev := FirstWinsUpdates(target, pre, sourceField, intersects);
    if j < n {
      assert pre[j] == sources[j];
      forall i | 0 <= i < j ensures !Feeds(target, pre[i], intersects, x) {
        assert pre[i] == sources[i];
      }
      FirstWinsVoltage(target, pre, sourceField, intersects, j, x);
    } else {
      FirstWinsKeys(target, pre, sourceField, intersects, x);
      forall i | 0 <= i < n ensures !Feeds(target, pre[i], intersects, x) {
        assert pre[i] == sources[i];
      }
    }
    PutEachAbsentEffect(prev, FirstAppearance(ids), FieldValues(layer, sourceField), x);
  }

  /** row[1] is None or row[1] == '' */
  predicate IsBlank(v: Value)
  {
    v == Null || v == Str("")
  }

  /** The final update cursor: a row of the last selection whose OBJECTID was collected and whose voltage
      is blank takes the collected voltage. */
  function FillRow(target: seq<Row>, row: Row, updates: map<Value, Value>, sources: seq<seq<Row>>, targetField: string,
                   intersects: Relation): Row
  {
    var id := Get(row, ObjectIdField);
    if InLastSelection(target, row, sources, intersects) && id in updates && IsBlank(Get(row, targetField))
    then row[targetField := updates[id]] else row
  }

  /** The fill never changes a voltage that was already set, nor any other field. */
  lemma FillKeepsSetVoltages(target: seq<Row>, row: Row, updates: map<Value, Value>, sources: seq<seq<Row>>,
                             targetField: string, intersects: Relation, f: string)
    requires !IsBlank(Get(row, targetField)) || f != targetField
    ensures Get(FillRow(target, row, updates, sources, targetField, intersects), f) == Get(row, f)
  {
  }

  /** Filling twice fills as once. */
  lemma FillRowIdempotent(target: seq<Row>, row: Row, updates: map<Value, Value>, sources: seq<seq<Row>>,
                          targetField: string, intersects: Relation)
    requires targetField != ShapeToken && targetField != ObjectIdField
    ensures FillRow(target, FillRow(target, row, updates, sources, targetField, intersects), updates, sources, targetField,
                    intersects) ==
            FillRow(target, row, updates, sources, targetField, intersects)
  {
    var r := FillRow(target, row, updates, sources, targetField, intersects);
    assert Get(r, ShapeToken) == Get(row, ShapeToken);
    assert InLastSelection(target, r, sources, intersects) == InLastSelection(target, row, sources, intersects);
  }

  /** A blank-voltage row of the last selection takes the voltage of the first feature of the first
      source layer that feeds it. */
  lemma SelectedBlankRowsTakeFirstVoltage(target: seq<Row>, sources: seq<seq<Row>>, targetField: string,
                                          sourceField: string, intersects: Relation, k: nat, j: nat)
    requires k < |target| && InLastSelection(target, target[k], sources, intersects) && IsBlank(Get(target[k], targetField))
    requires j < |sources| && Feeds(target, sources[j], intersects, Get(target[k], ObjectIdField))
    requires forall i :: 0 <= i < j ==> !Feeds(target, sources[i], intersects, Get(target[k], ObjectIdField))
    ensures FillRow(target, target[k], FirstWinsUpdates(target, sources, sourceField, intersects), sources, targetField,
                    intersects) ==
            target[k][targetField := Get(sources[j][0], sourceField)]
  {
    FirstWinsVoltage(target, sources, sourceField, intersects, j, Get(target[k], ObjectIdField));
  }

  /** for target_id in intersecting_ids: if target_id not in voltage_updates: ... */
  method PutAbsentIds(m: map<Value, Value>, ids: seq<Value>, v: Value) returns (r: map<Value, Value>)
    ensures r == PutAbsent(m, ids, v)
  {
    r := m;
    var i := 0;
    while i < |ids|
      invariant 0 <= i <= |ids|
      invariant r == PutAbsent(m, ids[..i], v)
    {
      assert ids[..i + 1][..i] == ids[..i];
      if ids[i] !in r {
        r := r[ids[i] := v];
      }
      i := i + 1;
    }
    assert ids[..i] == ids;
  }

  /** The collection loops. */
  method CollectVoltageUpdates(target: seq<Row>, sources: seq<seq<Row>>, sourceField: string, intersects: Relation)
    returns (updates: map<Value, Value>)
    ensures updates == FirstWinsUpdates(target, sources, sourceField, intersects)
  {
    updates := map[];
    var l := 0;
    while l < |sources|
      invariant 0 <= l <= |sources|
      invariant updates == FirstWinsUpdates(target, sources[..l], sourceField, intersects)
    {
      assert sources[..l + 1][..l] == sources[..l];
      var layer := sources[l];
      var intersectingIds := FirstAppearance(SelectedIds(target, layer, intersects));
      ghost var before := updates;
      ghost var voltages := FieldValues(layer, sourceField);
      var f := 0;
      while f < |layer|
        invariant 0 <= f <= |layer|
        invariant updates == PutEachAbsent(before, intersectingIds, voltages[..f])
      {
        assert voltages[..f + 1][..f] == voltages[..f];
        updates := PutAbsentIds(updates, intersectingIds, Get(layer[f], sourceField));
        f := f + 1;
      }
      assert voltages[..f] == voltages;
      l := l + 1;
    }
    assert sources[..l] == sources;
  }

  /** update_voltage_from_multiple_sources as the script version (line 114) has it. */
  method UpdateVoltageFromMultipleSources(target: FeatureClass, sources: seq<seq<Row>>, targetField: string,
                                          sourceField: string, intersects: Relation)
    requires target.Valid() && target.HasField(targetField)
    modifies target
    ensures target.Valid() && target.schema == old(target.schema)
    ensures |target.rows| == |old(target.rows)|
    ensures forall k :: 0 <= k < |target.rows| ==>
              target.rows[k] == FillRow(old(target.rows), old(target.rows)[k],
                                        FirstWinsUpdates(old(target.rows), sources, sourceField, intersects),
                                        sources, targetField, intersects)
  {
    var updates := CollectVoltageUpdates(target.rows, sources, sourceField, intersects);
    if |updates| > 0 {
      ghost var original := target.rows;
      var everyRow := |sources| > 0 && NoneIntersect(target.rows, sources[|sources| - 1], intersects);
      var i := 0;
      while i < |target.rows|
        invariant 0 <= i <= |target.rows| == |original|
        invariant target.Valid() && target.schema == old(target.schema)
        invariant forall k :: 0 <= k < i ==>
                    target.rows[k] == FillRow(original, original[k], updates, sources, targetField, intersects)
        invariant forall k :: i <= k < |target.rows| ==> target.rows[k] == original[k]
      {
        var row := target.rows[i];
        var id := Get(row, ObjectIdField);
        if |sources| > 0 && Visited(row, sources[|sources| - 1], intersects, everyRow) && id in updates &&
           IsBlank(Get(row, targetField)) {
          target.rows := target.rows[i := row[targetField := updates[id]]];
        }
        i := i + 1;
      }
    }
  }

  // ---------------------------------------------------------------- update_mig_issource

  /** SUBSOURCE == 1 gives 2, else a relationship gives 1, else the value is kept. */
  function IsSourceValue(subsource: Value, related: bool, current: Value): Value
  {
    if subsource == Int(1) then Int(2) else if related then Int(1) else current
  }

  function IsSourceRow(row: Row, sources: seq<Row>): Row
  {
    row[IsSourceField := IsSourceValue(Get(row, SubsourceField), HasRelationship(sources, Get(row, GlobalIdField)),
                                      Get(row, IsSourceField))]
  }

  /** Where the two versions of the rule disagree: a subsource above 1 kV (the toolbox gives it 1 when it
      is related and at most 60 kV, else keeps it), or a related non-subsource outside 2..60 kV (the
      toolbox keeps it). Everywhere else they write the same value. */
  lemma IsSourceVersionsDiffer(dec: DecimalTable, voltageText: string, subsource: Value, related: bool, current: Value)
    ensures var v := ParseLeadingNumber(dec, voltageText);
            UpdateFieldsToolbox.IsSourceValue(dec, voltageText, subsource, related, current) != IsSourceValue(subsource, related, current)
            <==>
            (subsource == Int(1) && v > 1 && ((related && v <= 60) || current != Int(2))) ||
            (subsource != Int(1) && related && (v <= 1 || v > 60) && current != Int(1))
  {
  }

  lemma IsSourceRowIdempotent(row: Row, sources: seq<Row>)
    ensures IsSourceRow(IsSourceRow(row, sources), sources) == IsSourceRow(row, sources)
  {
    var r := IsSourceRow(row, sources);
    assert Get(r, SubsourceField) == Get(row, SubsourceField);
    assert Get(r, GlobalIdField) == Get(row, GlobalIdField);
  }

  /** update_mig_issource as the script version has it: every breaker row is rewritten by the rule. */
  method UpdateMigIsSource(breakers: FeatureClass, sources: seq<Row>)
    requires breakers.Valid() && breakers.HasField(IsSourceField)
    modifies breakers
    ensures breakers.Valid() && breakers.schema == old(breakers.schema)
    ensures |breakers.rows| == |old(breakers.rows)|
    ensures forall k :: 0 <= k < |breakers.rows| ==> breakers.rows[k] == IsSourceRow(old(breakers.rows)[k], sources)
  {
    ghost var original := breakers.rows;
    var i := 0;
    while i < |breakers.rows|
      invariant 0 <= i <= |breakers.rows| == |original|
      invariant breakers.Valid() && breakers.schema == old(breakers.schema)
      invariant forall k :: 0 <= k < i ==> breakers.rows[k] == IsSourceRow(original[k], sources)
      invariant forall k :: i <= k < |breakers.rows| ==> breakers.rows[k] == original[k]
    {
      var row := breakers.rows[i];
      var relationshipExists := CheckRelationship(sources, Get(row, GlobalIdField));
      var newValue := IsSourceValue(Get(row, SubsourceField), relationshipExists, Get(row, IsSourceField));
      breakers.rows := breakers.rows[i := row[IsSourceField := newValue]];
      i := i + 1;
    }
  }
}
