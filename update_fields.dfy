/** The two operations in which Update_Fields_Toolbox.py differs from the script version:
    voltage propagation where the last source feature wins, and the MIG_ISSOURCE rule that
    reads the operating voltage. */
module UpdateFieldsToolbox {
  import opened Strings
  import opened Tables
  import opened Propagation

  // ---------------------------------------------------------------- update_voltage_from_multiple_sources

  /** for target_id in intersecting_ids: voltage_updates[target_id] = voltage */
  function PutAll(m: map<Value, Value>, ids: seq<Value>, v: Value): map<Value, Value>
    decreases |ids|
  {
    if |ids| == 0 then m else PutAll(m, ids[..|ids| - 1], v)[ids[|ids| - 1] := v]
  }

  /** The loop over the source cursor: every source voltage in turn is written to every collected id. */
  function PutEach(m: map<Value, Value>, ids: seq<Value>, voltages: seq<Value>): map<Value, Value>
    decreases |voltages|
  {
    if |voltages| == 0 then m
    else PutAll(PutEach(m, ids, voltages[..|voltages| - 1]), ids, voltages[|voltages| - 1])
  }

  /** voltage_updates after all source layers, in list order. */
  function LastWinsUpdates(target: seq<Row>, sources: seq<seq<Row>>, sourceField: string, intersects: Relation)
    : map<Value, Value>
    decreases |sources|
  {
    if |sources| == 0 then map[]
    else
      var layer := sources[|sources| - 1];
      PutEach(LastWinsUpdates(target, sources[..|sources| - 1], sourceField, intersects),
              SelectedIds(target, layer, intersects), FieldValues(layer, sourceField))
  }

  lemma {:induction false} PutAllEffect(m: map<Value, Value>, ids: seq<Value>, v: Value, x: Value)
    ensures x in PutAll(m, ids, v) <==> x in m || x in ids
    ensures x in PutAll(m, ids, v) ==> PutAll(m, ids, v)[x] == if x in ids then v else m[x]
    decreases |ids|
  {
    if |ids| > 0 {
      var n := |ids| - 1;
      PutAllEffect(m, ids[..n], v, x);
      assert ids == ids[..n] + [ids[n]];
    }
  }

  lemma {:induction false} PutEachEffect(m: map<Value, Value>, ids: seq<Value>, voltages: seq<Value>, x: Value)
    ensures x in PutEach(m, ids, voltages) <==> x in m || (x in ids && |voltages| > 0)
    ensures x in PutEach(m, ids, voltages) ==>
              PutEach(m, ids, voltages)[x] == if x in ids && |voltages| > 0 then voltages[|voltages| - 1] else m[x]
    decreases |voltages|
  {
    if |voltages| > 0 {
      var n := |voltages| - 1;
      PutEachEffect(m, ids, voltages[..n], x);
      PutAllEffect(PutEach(m, ids, voltages[..n]), ids, voltages[n], x);
    }
  }

  /** A source layer whose ids include x leaves x with the layer's last voltage. */
  lemma PutEachHit(m: map<Value, Value>, ids: seq<Value>, voltages: seq<Value>, x: Value)
    requires x in ids && |voltages| > 0
    ensures x in PutEach(m, ids, voltages) && PutEach(m, ids, voltages)[x] == voltages[|voltages| - 1]
  {
    PutEachEffect(m, ids, voltages, x);
  }

  /** A source layer whose ids leave out x, or that has no voltages, leaves x's entry as it was. */
  lemma PutEachMiss(m: map<Value, Value>, ids: seq<Value>, voltages: seq<Value>, x: Value)
    requires (x !in ids || |voltages| == 0) && x in m
    ensures x in PutEach(m, ids, voltages) && PutEach(m, ids, voltages)[x] == m[x]
  {
    PutEachEffect(m, ids, voltages, x);
  }

  /** A target takes the voltage of the LAST feature of the last source layer that feeds it (one with
      features whose selection holds it), whichever of that layer's features it actually intersects. */
  lemma {:induction false} LastWinsVoltage(target: seq<Row>, sources: seq<seq<Row>>, sourceField: string,
                                           intersects: Relation, j: nat, x: Value)
    requires j < |sources| && Feeds(target, sources[j], intersects, x)
    requires forall i :: j < i < |sources| ==> !Feeds(target, sources[i], intersects, x)
    ensures x in LastWinsUpdates(target, sources, sourceField, intersects)
    ensures LastWinsUpdates(target, sources, sourceField, intersects)[x] == Get(sources[j][|sources[j]| - 1], sourceField)
    decreases |sources|
  {
    var n := |sources| - 1;
    var pre := sources[..n];
    var layer := sources[n];
    if j < n {
      assert pre[j] == sources[j];
      forall i | j < i < n ensures !Feeds(target, pre[i], intersects, x) {
        assert pre[i] == sources[i];
      }
      LastWinsVoltage(target, pre, sourceField, intersects, j, x);
      assert !Feeds(target, layer, intersects, x);
      PutEachMiss(LastWinsUpdates(target, pre, sourceField, intersects), SelectedIds(target, layer, intersects),
                  FieldValues(layer, sourceField), x);
    } else {
      PutEachHit(LastWinsUpdates(target, pre, sourceField, intersects), SelectedIds(target, layer, intersects),
                 FieldValues(layer, sourceField), x);
    }
  }

  /** A target that no source layer feeds gets no entry. */
  lemma {:induction false} NoFeedNoVoltage(target: seq<Row>, sources: seq<seq<Row>>, sourceField: string,
                                           intersects: Relation, x: Value)
    requires forall i :: 0 <= i < |sources| ==> !Feeds(target, sources[i], intersects, x)
    ensures x !in LastWinsUpdates(target, sources, sourceField, intersects)
    decreases |sources|
  {
    if |sources| > 0 {
      var n := |sources| - 1;
      var pre := sources[..n];
      forall i | 0 <= i < n ensures !Feeds(target, pre[i], intersects, x) {
        assert pre[i] == sources[i];
      }
      NoFeedNoVoltage(target, pre, sourceField, intersects, x);
      assert !Feeds(target, sources[n], intersects, x);
      PutEachEffect(LastWinsUpdates(target, pre, sourceField, intersects), SelectedIds(target, sources[n], intersects),
                    FieldValues(sources[n], sourceField), x);
    }
  }

  /** The final update cursor: a row of the last selection whose OBJECTID was collected takes its voltage. */
  function VoltageRow(target: seq<Row>, row: Row, updates: map<Value, Value>, sources: seq<seq<Row>>, targetField: string,
                      intersects: Relation): Row
  {
    var id := Get(row, ObjectIdField);
    if InLastSelection(target, row, sources, intersects) && id in updates then row[targetField := updates[id]] else row
  }

  /** A row the final cursor visits takes the voltage of the last feature of the last source layer that
      feeds it. When the last layer has features that is the last layer (LastLayerFeedsSelection); rows
      outside the last selection keep their voltage even when an earlier layer collected their id. */
  lemma SelectedRowsTakeLastFeatureVoltage(target: seq<Row>, sources: seq<seq<Row>>, targetField: string,
                                           sourceField: string, intersects: Relation, k: nat, j: nat)
    requires k < |target| && InLastSelection(target, target[k], sources, intersects)
    requires j < |sources| && Feeds(target, sources[j], intersects, Get(target[k], ObjectIdField))
    requires forall i :: j < i < |sources| ==> !Feeds(target, sources[i], intersects, Get(target[k], ObjectIdField))
    ensures VoltageRow(target, target[k], LastWinsUpdates(target, sources, sourceField, intersects), sources, targetField,
                       intersects) ==
            target[k][targetField := Get(sources[j][|sources[j]| - 1], sourceField)]
  {
    LastWinsVoltage(target, sources, sourceField, intersects, j, Get(target[k], ObjectIdField));
  }

  /** for target_id in intersecting_ids */
  method PutAllIds(m: map<Value, Value>, ids: seq<Value>, v: Value) returns (r: map<Value, Value>)
    ensures r == PutAll(m, ids, v)
  {
    r := m;
    var i := 0;
    while i < |ids|
      invariant 0 <= i <= |ids|
      invariant r == PutAll(m, ids[..i], v)
    {
      assert ids[..i + 1][..i] == ids[..i];
      r := r[ids[i] := v];
      i := i + 1;
    }
    assert ids[..i] == ids;
  }

  /** The collection loops of update_voltage_from_multiple_sources. */
  method CollectVoltageUpdates(target: seq<Row>, sources: seq<seq<Row>>, sourceField: string, intersects: Relation)
    returns (updates: map<Value, Value>)
    ensures updates == LastWinsUpdates(target, sources, sourceField, intersects)
  {
    updates := map[];
    var l := 0;
    while l < |sources|
      invariant 0 <= l <= |sources|
      invariant updates == LastWinsUpdates(target, sources[..l], sourceField, intersects)
    {
      assert sources[..l + 1][..l] == sources[..l];
      var layer := sources[l];
      var intersectingIds := SelectedIds(target, layer, intersects);
      ghost var before := updates;
      ghost var voltages := FieldValues(layer, sourceField);
      var f := 0;
      while f < |layer|
        invariant 0 <= f <= |layer|
        invariant updates == PutEach(before, intersectingIds, voltages[..f])
      {
        assert voltages[..f + 1][..f] == voltages[..f];
        updates := PutAllIds(updates, intersectingIds, Get(layer[f], sourceField));
        f := f + 1;
      }
      assert voltages[..f] == voltages;
      l := l + 1;
    }
    assert sources[..l] == sources;
  }

  /** update_voltage_from_multiple_sources as Update_Fields_Toolbox.py has it. */
  method UpdateVoltageFromMultipleSources(target: FeatureClass, sources: seq<seq<Row>>, targetField: string,
                                          sourceField: string, intersects: Relation)
    requires target.Valid() && target.HasField(targetField)
    modifies target
    ensures target.Valid() && target.schema == old(target.schema)
    ensures |target.rows| == |old(target.rows)|
    ensures forall k :: 0 <= k < |target.rows| ==>
              target.rows[k] == VoltageRow(old(target.rows), old(target.rows)[k],
                                           LastWinsUpdates(old(target.rows), sources, sourceField, intersects),
                                           sources, targetField, intersects)
  {
    var updates := CollectVoltageUpdates(target.rows, sources, sourceField, intersects);
    if |updates| > 0 {
      ghost var original := target.rows;
      var everyRow := |sources| > 0 && NoneIntersect(target.rows, sources[|sources| - 1], intersects);
      var i := 0;
      while i < |target.rows|
        invariant 0 <= i <= |target.rows| == |original|
        invariant target.Valid() && target.schema == old(target.schema)
        invariant forall k :: 0 <= k < i ==>
                    target.rows[k] == VoltageRow(original, original[k], updates, sources, targetField, intersects)
        invariant forall k :: i <= k < |target.rows| ==> target.rows[k] == original[k]
      {
        var row := target.rows[i];
        if |sources| > 0 && Visited(row, sources[|sources| - 1], intersects, everyRow) && Get(row, ObjectIdField) in updates {
          target.rows := target.rows[i := row[targetField := updates[Get(row, ObjectIdField)]]];
        }
        i := i + 1;
      }
    }
  }

  // ---------------------------------------------------------------- update_mig_issource

  /** The new MIG_ISSOURCE: 2 for a subsource of at most 1 kV, else 1 for a related breaker above 1 kV
      and up to 60 kV, else unchanged. The voltage is the leading number of OPERATINGVOLTAGE (0 if none),
      read with the interpreter's table of decimal digits. */
  function IsSourceValue(dec: DecimalTable, voltageText: string, subsource: Value, related: bool, current: Value): Value
  {
    var voltage := ParseLeadingNumber(dec, voltageText);
    if voltage <= 1 && subsource == Int(1) then Int(2)
    else if 1 < voltage <= 60 && related then Int(1)
    else current
  }

  function IsSourceRow(dec: DecimalTable, row: Row, sources: seq<Row>): Row
  {
    var text := if Get(row, OperatingVoltageField).Str? then Get(row, OperatingVoltageField).s else "";
    row[IsSourceField := IsSourceValue(dec, text, Get(row, SubsourceField), HasRelationship(sources, Get(row, GlobalIdField)),
                                      Get(row, IsSourceField))]
  }

  /** For a voltage text that starts with decimal digits (of any script) reading v, the rule writes 2
      exactly for the subsources with v at most 1, 1 exactly for the other related breakers with v from 2
      to 60, and keeps the old value otherwise. */
  lemma IsSourceValueCases(dec: DecimalTable, digits: string, rest: string, subsource: Value, related: bool,
                           current: Value)
    requires |digits| > 0 && AllDecimal(dec, digits)
    requires |rest| == 0 || !IsDecimal(dec, rest[0])
    ensures var voltage := DecimalsValue(dec, digits);
            var r := IsSourceValue(dec, digits + rest, subsource, related, current);
            (voltage <= 1 && subsource == Int(1) ==> r == Int(2)) &&
            (!(voltage <= 1 && subsource == Int(1)) && 1 < voltage <= 60 && related ==> r == Int(1)) &&
            (!(voltage <= 1 && subsource == Int(1)) && !(1 < voltage <= 60 && related) ==> r == current)
  {
    ParseLeadingNumberOfDigits(dec, digits, rest);
  }

  /** A voltage text that does not start with a decimal digit counts as 0 kV: a subsource gets 2 and
      every other breaker keeps its value, related or not. */
  lemma IsSourceValueNoVoltage(dec: DecimalTable, voltageText: string, subsource: Value, related: bool, current: Value)
    requires |voltageText| == 0 || !IsDecimal(dec, voltageText[0])
    ensures IsSourceValue(dec, voltageText, subsource, related, current) == if subsource == Int(1) then Int(2) else current
  {
    ParseLeadingNumberNoDigit(dec, voltageText);
  }

  /** Running the rule twice changes nothing more: it never reads the field it writes. */
  lemma IsSourceRowIdempotent(dec: DecimalTable, row: Row, sources: seq<Row>)
    ensures IsSourceRow(dec, IsSourceRow(dec, row, sources), sources) == IsSourceRow(dec, row, sources)
  {
    var r := IsSourceRow(dec, row, sources);
    assert Get(r, OperatingVoltageField) == Get(row, OperatingVoltageField);
    assert Get(r, SubsourceField) == Get(row, SubsourceField);
    assert Get(r, GlobalIdField) == Get(row, GlobalIdField);
  }

  /** update_mig_issource as Update_Fields_Toolbox.py has it. re.match raises TypeError on a breaker whose
      OPERATINGVOLTAGE is not text; the model then stops at that row, the rows before it updated, and
      returns its index. The interpreter's table of decimal digits is the parameter dec. */
  method UpdateMigIsSource(dec: DecimalTable, breakers: FeatureClass, sources: seq<Row>) returns (failedAt: Option<nat>)
    requires breakers.Valid() && breakers.HasField(IsSourceField)
    modifies breakers
    ensures breakers.Valid() && breakers.schema == old(breakers.schema)
    ensures |breakers.rows| == |old(breakers.rows)|
    ensures failedAt.None? ==>
              forall k :: 0 <= k < |breakers.rows| ==>
                Get(old(breakers.rows)[k], OperatingVoltageField).Str? && breakers.rows[k] == IsSourceRow(dec, old(breakers.rows)[k], sources)
    ensures failedAt.Some? ==>
              failedAt.value < |breakers.rows| && !Get(old(breakers.rows)[failedAt.value], OperatingVoltageField).Str? &&
              (forall k :: 0 <= k < failedAt.value ==>
                 Get(old(breakers.rows)[k], OperatingVoltageField).Str? && breakers.rows[k] == IsSourceRow(dec, old(breakers.rows)[k], sources)) &&
              (forall k :: failedAt.value <= k < |breakers.rows| ==> breakers.rows[k] == old(breakers.rows)[k])
  {
    ghost var original := breakers.rows;
    var i := 0;
    while i < |breakers.rows|
      invariant 0 <= i <= |breakers.rows| == |original|
      invariant breakers.Valid() && breakers.schema == old(breakers.schema)
      invariant forall k :: 0 <= k < i ==>
                  Get(original[k], OperatingVoltageField).Str? && breakers.rows[k] == IsSourceRow(dec, original[k], sources)
      invariant forall k :: i <= k < |breakers.rows| ==> breakers.rows[k] == original[k]
    {
      var row := breakers.rows[i];
      var voltageText := Get(row, OperatingVoltageField);
      if !voltageText.Str? {
        return Some(i);
      }
      var relationshipExists := CheckRelationship(sources, Get(row, GlobalIdField));
      var newValue := IsSourceValue(dec, voltageText.s, Get(row, SubsourceField), relationshipExists, Get(row, IsSourceField));
      breakers.rows := breakers.rows[i := row[IsSourceField := newValue]];
      i := i + 1;
    }
    return None;
  }
}
