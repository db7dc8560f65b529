/** The field-propagation operators that Update_Fields_Toolbox.py and
    import_py_file_mainlogic_for_toolbox.py define identically: the key-based
    join, the 'Station' parent tagging, the self-copy of columns, first-match
    tagging by intersection, classification against station polygons and the
    circuit-source relationship test. Each operator is a method that runs the
    source's cursor loops over a FeatureClass, proved equal to a specification
    function whose meaning is stated by lemmas. */
module Propagation {
  import opened Strings
  import opened Tables

  // ---------------------------------------------------------------- update_fc_from_dict

  /** One (source field, destination field) tuple of field_pairs. */
  datatype FieldPair = FieldPair(source: string, destination: string)

  function SourceFields(pairs: seq<FieldPair>): (fs: seq<string>)
    ensures |fs| == |pairs| && forall i :: 0 <= i < |pairs| ==> fs[i] == pairs[i].source
  {
    seq(|pairs|, i requires 0 <= i < |pairs| => pairs[i].source)
  }

  /** The values of the named fields of a row: {f: row[f] for f in fields}. */
  function Project(r: Row, fields: seq<string>): map<string, Value>
  {
    map f | f in fields :: Get(r, f)
  }

  /** origin_fc_dict: source key to the projected source row, later rows replacing earlier ones. */
  function OriginTable(source: seq<Row>, key: string, fields: seq<string>): map<Value, map<string, Value>>
    decreases |source|
  {
    if |source| == 0 then map[]
    else
      var r := source[|source| - 1];
      OriginTable(source[..|source| - 1], key, fields)[Get(r, key) := Project(r, fields)]
  }

  /** The table holds exactly the keys that occur in the source. */
  lemma {:induction false} OriginTableKeys(source: seq<Row>, key: string, fields: seq<string>, k: Value)
    ensures k in OriginTable(source, key, fields) <==> exists i :: 0 <= i < |source| && Get(source[i], key) == k
    decreases |source|
  {
    if |source| > 0 {
      var n := |source| - 1;
      OriginTableKeys(source[..n], key, fields, k);
      if exists i :: 0 <= i < n && Get(source[..n][i], key) == k {
        var i :| 0 <= i < n && Get(source[..n][i], key) == k;
        assert Get(source[i], key) == k;
      }
      if i :| 0 <= i < n && Get(source[i], key) == k {
        assert Get(source[..n][i], key) == k;
      }
    }
  }

  /** A key repeated in the source holds the values of its last row. */
  lemma {:induction false} OriginTableLastWins(source: seq<Row>, key: string, fields: seq<string>, j: nat)
    requires j < |source|
    requires forall i :: j < i < |source| ==> Get(source[i], key) != Get(source[j], key)
    ensures Get(source[j], key) in OriginTable(source, key, fields)
    ensures OriginTable(source, key, fields)[Get(source[j], key)] == Project(source[j], fields)
    decreases |source|
  {
    var n := |source| - 1;
    if j < n {
      OriginTableLastWins(source[..n], key, fields, j);
      assert source[..n][j] == source[j];
    }
  }

  /** The search-cursor loop that fills origin_fc_dict. */
  method BuildOriginTable(source: seq<Row>, key: string, fields: seq<string>)
    returns (table: map<Value, map<string, Value>>)
    ensures table == OriginTable(source, key, fields)
  {
    table := map[];
    var i := 0;
    while i < |source|
      invariant 0 <= i <= |source|
      invariant table == OriginTable(source[..i], key, fields)
    {
      assert source[..i + 1][..i] == source[..i];
      table := table[Get(source[i], key) := Project(source[i], fields)];
      i := i + 1;
    }
    assert source[..i] == source;
  }

  /** row[i + 1] = related_data[field_pairs[i][0]] for every pair, in pair order. */
  function ApplyPairs(row: Row, pairs: seq<FieldPair>, data: map<string, Value>): Row
    decreases |pairs|
  {
    if |pairs| == 0 then row
    else
      var p := pairs[|pairs| - 1];
      ApplyPairs(row, pairs[..|pairs| - 1], data)[p.destination := Get(data, p.source)]
  }

  predicate IsDestination(pairs: seq<FieldPair>, f: string)
  {
    exists i :: 0 <= i < |pairs| && pairs[i].destination == f
  }

  lemma IsDestinationSnoc(pairs: seq<FieldPair>, f: string)
    requires |pairs| > 0
    ensures IsDestination(pairs, f) <==> IsDestination(pairs[..|pairs| - 1], f) || pairs[|pairs| - 1].destination == f
  {
    var n := |pairs| - 1;
    if i :| 0 <= i < n && pairs[..n][i].destination == f {
      assert pairs[i].destination == f;
    }
    if i :| 0 <= i < n && pairs[i].destination == f {
      assert pairs[..n][i].destination == f;
    }
  }

  /** Writing the pairs adds the destination fields to the row and no others. */
  lemma {:induction false} ApplyPairsKeys(row: Row, pairs: seq<FieldPair>, data: map<string, Value>, f: string)
    ensures f in ApplyPairs(row, pairs, data) <==> f in row || IsDestination(pairs, f)
    decreases |pairs|
  {
    if |pairs| > 0 {
      ApplyPairsKeys(row, pairs[..|pairs| - 1], data, f);
      IsDestinationSnoc(pairs, f);
    }
  }

  /** A field that is no pair's destination keeps its value. */
  lemma {:induction false} ApplyPairsOther(row: Row, pairs: seq<FieldPair>, data: map<string, Value>, f: string)
    requires !IsDestination(pairs, f)
    ensures Get(ApplyPairs(row, pairs, data), f) == Get(row, f)
    decreases |pairs|
  {
    if |pairs| > 0 {
      IsDestinationSnoc(pairs, f);
      ApplyPairsOther(row, pairs[..|pairs| - 1], data, f);
    }
  }

  /** A destination holds the source value of the last pair that names it. */
  lemma {:induction false} ApplyPairsLast(row: Row, pairs: seq<FieldPair>, data: map<string, Value>, i: nat)
    requires i < |pairs|
    requires forall k :: i < k < |pairs| ==> pairs[k].destination != pairs[i].destination
    ensures Get(ApplyPairs(row, pairs, data), pairs[i].destination) == Get(data, pairs[i].source)
    decreases |pairs|
  {
    var n := |pairs| - 1;
    if i < n {
      var pre := pairs[..n];
      assert pre[i] == pairs[i];
      forall k | i < k < n ensures pre[k].destination != pre[i].destination {
        assert pre[k] == pairs[k];
      }
      ApplyPairsLast(row, pre, data, i);
    }
  }

  /** The new value of one destination row under update_fc_from_dict. */
  function JoinRow(row: Row, table: map<Value, map<string, Value>>, destinationKey: string,
                   pairs: seq<FieldPair>, where: Row -> bool): Row
  {
    var key := Get(row, destinationKey);
    if where(row) && key in table then ApplyPairs(row, pairs, table[key]) else row
  }

  /** The keys of the rows passing the where clause that find no source row: one warning each, in cursor order. */
  function UnmatchedKeys(rows: seq<Row>, table: map<Value, map<string, Value>>, destinationKey: string,
                         where: Row -> bool): seq<Value>
    decreases |rows|
  {
    if |rows| == 0 then []
    else
      var r := rows[|rows| - 1];
      var rest := UnmatchedKeys(rows[..|rows| - 1], table, destinationKey, where);
      if where(r) && Get(r, destinationKey) !in table then rest + [Get(r, destinationKey)] else rest
  }

  /** The join's promise: a destination row that passes the filter and whose key occurs in the
      source takes, in destination field pairs[i].destination, the value of pairs[i].source in the
      LAST source row with that key; its other fields (the key among them) keep their values.
      A row that fails the filter or finds no key is left as it was. */
  lemma JoinTakesLastSourceRow(source: seq<Row>, sourceKey: string, row: Row, destinationKey: string,
                               pairs: seq<FieldPair>, where: Row -> bool, j: nat, i: nat, f: string)
    requires j < |source| && Get(source[j], sourceKey) == Get(row, destinationKey) && where(row)
    requires forall k :: j < k < |source| ==> Get(source[k], sourceKey) != Get(source[j], sourceKey)
    requires i < |pairs| && forall k :: i < k < |pairs| ==> pairs[k].destination != pairs[i].destination
    ensures var table := OriginTable(source, sourceKey, SourceFields(pairs));
            var joined := JoinRow(row, table, destinationKey, pairs, where);
            Get(joined, pairs[i].destination) == Get(source[j], pairs[i].source) &&
            (!IsDestination(pairs, f) ==> Get(joined, f) == Get(row, f))
  {
    var fields := SourceFields(pairs);
    OriginTableLastWins(source, sourceKey, fields, j);
    var data := Project(source[j], fields);
    ApplyPairsLast(row, pairs, data, i);
    if !IsDestination(pairs, f) {
      ApplyPairsOther(row, pairs, data, f);
    }
    assert pairs[i].source in fields;
  }

  /** A row whose key no source row carries, or that fails the filter, is unchanged. */
  lemma JoinUnmatchedUnchanged(source: seq<Row>, sourceKey: string, row: Row, destinationKey: string,
                               pairs: seq<FieldPair>, where: Row -> bool)
    requires !where(row) || forall k :: 0 <= k < |source| ==> Get(source[k], sourceKey) != Get(row, destinationKey)
    ensures JoinRow(row, OriginTable(source, sourceKey, SourceFields(pairs)), destinationKey, pairs, where) == row
  {
    OriginTableKeys(source, sourceKey, SourceFields(pairs), Get(row, destinationKey));
  }

  /** The loop over the field pairs for one matched row: row[i + 1] = related_data[field_pairs[i][0]]. */
  method CopyRelated(row: Row, pairs: seq<FieldPair>, related: map<string, Value>) returns (r: Row)
    ensures r == ApplyPairs(row, pairs, related)
  {
    r := row;
    var j := 0;
    while j < |pairs|
      invariant 0 <= j <= |pairs|
      invariant r == ApplyPairs(row, pairs[..j], related)
    {
      assert pairs[..j + 1][..j] == pairs[..j];
      r := r[pairs[j].destination := Get(related, pairs[j].source)];
      j := j + 1;
    }
    assert pairs[..j] == pairs;
  }

  /** update_fc_from_dict: the source is read into origin_fc_dict, then an update cursor over the
      destination rows that pass the where clause overwrites the destination fields of every row whose
      key is found and warns, with the key, for every row whose key is not. */
  method UpdateFcFromDict(source: seq<Row>, destination: FeatureClass, sourceKey: string,
                          destinationKey: string, pairs: seq<FieldPair>, where: Row -> bool)
    returns (unmatched: seq<Value>)
    requires destination.Valid() && destination.HasField(destinationKey)
    requires forall i :: 0 <= i < |pairs| ==> destination.HasField(pairs[i].destination)
    modifies destination
    ensures destination.Valid() && destination.schema == old(destination.schema)
    ensures |destination.rows| == |old(destination.rows)|
    ensures forall k :: 0 <= k < |destination.rows| ==>
              destination.rows[k] == JoinRow(old(destination.rows)[k], OriginTable(source, sourceKey, SourceFields(pairs)),
                                             destinationKey, pairs, where)
    ensures unmatched == UnmatchedKeys(old(destination.rows), OriginTable(source, sourceKey, SourceFields(pairs)),
                                       destinationKey, where)
  {
    var table := BuildOriginTable(source, sourceKey, SourceFields(pairs));
    ghost var original := destination.rows;
    unmatched := [];
    var i := 0;
    while i < |destination.rows|
      invariant 0 <= i <= |destination.rows| == |original|
      invariant destination.schema == old(destination.schema)
      invariant forall k :: 0 <= k < i ==> destination.rows[k] == JoinRow(original[k], table, destinationKey, pairs, where)
      invariant forall k :: i <= k < |original| ==> destination.rows[k] == original[k]
      invariant destination.Valid()
      invariant unmatched == UnmatchedKeys(original[..i], table, destinationKey, where)
    {
      assert original[..i + 1][..i] == original[..i];
      var row := destination.rows[i];
      if where(row) {
        var commonGuid := Get(row, destinationKey);
        if commonGuid in table {
          var related := table[commonGuid];
          row := CopyRelated(row, pairs, related);
          forall f ensures f in row <==> f in original[i] {
            ApplyPairsKeys(original[i], pairs, related, f);
          }
          destination.UpdateRow(i, row);
        } else {
          unmatched := unmatched + [commonGuid];
        }
      }
      i := i + 1;
    }
    assert original[..i] == original;
  }

  // ---------------------------------------------------------------- update_fc_within

  const ParentTypeField: string := "MIG_PARENTTYPE"

  /** [row[0] for row in arcpy.da.SearchCursor(fc, 'SHAPE@')] */
  function Shapes(rows: seq<Row>): (shapes: seq<Value>)
    ensures |shapes| == |rows| && forall i :: 0 <= i < |rows| ==> shapes[i] == Get(rows[i], ShapeToken)
  {
    seq(|rows|, i requires 0 <= i < |rows| => Get(rows[i], ShapeToken))
  }

  /** any(shape.within(outer) for outer in outers) */
  predicate WithinAny(shape: Value, outers: seq<Value>, within: Relation)
  {
    exists o :: o in outers && within(shape, o)
  }

  function WithinRow(row: Row, outers: seq<Value>, within: Relation): Row
  {
    if WithinAny(Get(row, ShapeToken), outers, within) then row[ParentTypeField := Str("Station")] else row
  }

  /** A row reads 'Station' in MIG_PARENTTYPE after the update exactly when it lies within some
      outer polygon or already read 'Station'; every other field keeps its value. */
  lemma WithinRowEffect(row: Row, outer: seq<Row>, within: Relation, f: string)
    ensures var r := WithinRow(row, Shapes(outer), within);
            (Get(r, ParentTypeField) == Str("Station") <==>
               (exists k :: 0 <= k < |outer| && within(Get(row, ShapeToken), Get(outer[k], ShapeToken))) ||
               Get(row, ParentTypeField) == Str("Station")) &&
            (f != ParentTypeField ==> Get(r, f) == Get(row, f))
  {
    var shapes := Shapes(outer);
    if k :| 0 <= k < |outer| && within(Get(row, ShapeToken), Get(outer[k], ShapeToken)) {
      assert shapes[k] in shapes;
    }
  }

  /** Tagging twice tags as once: the update does not change what it tests. */
  lemma WithinRowIdempotent(row: Row, outers: seq<Value>, within: Relation)
    ensures WithinRow(WithinRow(row, outers, within), outers, within) == WithinRow(row, outers, within)
  {
    assert Get(WithinRow(row, outers, within), ShapeToken) == Get(row, ShapeToken);
  }

  /** update_fc_within: MIG_PARENTTYPE becomes 'Station' for the inner rows within some outer polygon. */
  method UpdateFcWithin(inner: FeatureClass, outer: seq<Row>, within: Relation)
    requires inner.Valid() && inner.HasField(ParentTypeField)
    modifies inner
    ensures inner.Valid() && inner.schema == old(inner.schema)
    ensures |inner.rows| == |old(inner.rows)|
    ensures forall k :: 0 <= k < |inner.rows| ==> inner.rows[k] == WithinRow(old(inner.rows)[k], Shapes(outer), within)
  {
    var outerPolygons := Shapes(outer);
    ghost var original := inner.rows;
    var i := 0;
    while i < |inner.rows|
      invariant 0 <= i <= |inner.rows| == |original|
      invariant inner.schema == old(inner.schema) && inner.Valid()
      invariant forall k :: 0 <= k < i ==> inner.rows[k] == WithinRow(original[k], outerPolygons, within)
      invariant forall k :: i <= k < |original| ==> inner.rows[k] == original[k]
    {
      var row := inner.rows[i];
      var withinOuter := exists o :: o in outerPolygons && within(Get(row, ShapeToken), o);
      if withinOuter {
        inner.rows := inner.rows[i := row[ParentTypeField := Str("Station")]];
      }
      i := i + 1;
    }
  }

  // ---------------------------------------------------------------- update_fc_self

  /** One tuple of field_updates: the source field followed by the fields to populate from it. */
  datatype SelfUpdate = SelfUpdate(source: string, targets: seq<string>)

  /** [item for sublist in field_updates for item in sublist] */
  function AllFields(updates: seq<SelfUpdate>): seq<string>
    decreases |updates|
  {
    if |updates| == 0 then []
    else AllFields(updates[..|updates| - 1]) + [updates[|updates| - 1].source] + updates[|updates| - 1].targets
  }

  /** `value not in [None, '', 0]` is false */
  predicate IsEmptyCell(v: Value)
  {
    v == Null || v == Str("") || v == Int(0)
  }

  /** The value written to a target: str-converted when the target's name contains 'TEXT'. */
  function Converted(target: string, v: Value): Value
  {
    if Contains(target, "TEXT") then Str(ToStr(v)) else v
  }

  function WriteTargets(row: Row, targets: seq<string>, v: Value): Row
    decreases |targets|
  {
    if |targets| == 0 then row
    else
      var t := targets[|targets| - 1];
      WriteTargets(row, targets[..|targets| - 1], v)[t := Converted(t, v)]
  }

  /** One row after update_fc_self: the tuples in order, each reading its source from the row as it stands. */
  function SelfUpdateRow(row: Row, updates: seq<SelfUpdate>): Row
    decreases |updates|
  {
    if |updates| == 0 then row
    else
      var r := SelfUpdateRow(row, updates[..|updates| - 1]);
      var u := updates[|updates| - 1];
      WriteTargets(r, u.targets, Get(r, u.source))
  }

  lemma {:induction false} WriteTargetsEffect(row: Row, targets: seq<string>, v: Value, f: string)
    ensures f in WriteTargets(row, targets, v) <==> f in row || f in targets
    ensures Get(WriteTargets(row, targets, v), f) == if f in targets then Converted(f, v) else Get(row, f)
    decreases |targets|
  {
    if |targets| > 0 {
      var n := |targets| - 1;
      WriteTargetsEffect(row, targets[..n], v, f);
      assert targets == targets[..n] + [targets[n]];
    }
  }

  predicate IsTarget(updates: seq<SelfUpdate>, f: string)
  {
    exists a :: 0 <= a < |updates| && f in updates[a].targets
  }

  /** No field is populated by two tuples, and no populated field is read as a source. */
  predicate IndependentUpdates(updates: seq<SelfUpdate>)
  {
    (forall a, b :: 0 <= a < b < |updates| ==> forall t :: t in updates[a].targets ==> t !in updates[b].targets) &&
    (forall a, b :: 0 <= a < |updates| && 0 <= b < |updates| ==> updates[b].source !in updates[a].targets)
  }

  /** The self-update always overwrites: every target of a tuple ends up holding its tuple's source
      value (as text when its name contains 'TEXT') whatever it held before, and fields that are no
      tuple's target keep their values. */
  lemma {:induction false} SelfUpdateCopies(row: Row, updates: seq<SelfUpdate>, f: string)
    requires IndependentUpdates(updates)
    ensures !IsTarget(updates, f) ==> Get(SelfUpdateRow(row, updates), f) == Get(row, f)
    ensures forall a :: 0 <= a < |updates| && f in updates[a].targets ==>
              Get(SelfUpdateRow(row, updates), f) == Converted(f, Get(row, updates[a].source))
    decreases |updates|
  {
    if |updates| > 0 {
      var n := |updates| - 1;
      var pre := updates[..n];
      var u := updates[n];
      assert IndependentUpdates(pre) by {
        forall a, b | 0 <= a < |pre| && 0 <= b < |pre| ensures pre[b].source !in pre[a].targets {
          assert pre[a] == updates[a] && pre[b] == updates[b];
        }
        forall a, b | 0 <= a < b < |pre| ensures forall t :: t in pre[a].targets ==> t !in pre[b].targets {
          assert pre[a] == updates[a] && pre[b] == updates[b];
        }
      }
      var r := SelfUpdateRow(row, pre);
      SelfUpdateCopies(row, pre, f);
      SelfUpdateCopies(row, pre, u.source);
      assert !IsTarget(pre, u.source) by {
        forall a | 0 <= a < |pre| ensures u.source !in pre[a].targets {
          assert pre[a] == updates[a];
        }
      }
      WriteTargetsEffect(r, u.targets, Get(r, u.source), f);
      if IsTarget(pre, f) {
        var a :| 0 <= a < |pre| && f in pre[a].targets;
        assert updates[a] == pre[a];
      }
      if !IsTarget(updates, f) {
        assert f !in u.targets;
        forall a | 0 <= a < |pre| ensures f !in pre[a].targets {
          assert pre[a] == updates[a];
        }
      }
      forall a | 0 <= a < |updates| && f in updates[a].targets
        ensures Get(SelfUpdateRow(row, updates), f) == Converted(f, Get(row, updates[a].source))
      {
        if a < n {
          assert pre[a] == updates[a];
          assert f !in u.targets;
        }
      }
    }
  }

  /** update_fc_self: an update cursor over all rows; for every tuple, the source value is copied into
      each target (str-converted for names containing 'TEXT'). A target found holding data other than
      None, '' or 0 is reported once per field, and overwritten all the same. Returns the reported fields. */
  method UpdateFcSelf(fc: FeatureClass, updates: seq<SelfUpdate>) returns (reported: seq<string>)
    requires fc.Valid()
    requires forall f :: f in AllFields(updates) ==> fc.HasField(f)
    modifies fc
    ensures fc.Valid() && fc.schema == old(fc.schema)
    ensures |fc.rows| == |old(fc.rows)|
    ensures forall k :: 0 <= k < |fc.rows| ==> fc.rows[k] == SelfUpdateRow(old(fc.rows)[k], updates)
    ensures Distinct(reported)
    ensures forall f :: f in reported ==> IsTarget(updates, f)
  {
    ghost var original := fc.rows;
    var populated: set<string> := {};
    reported := [];
    var i := 0;
    while i < |fc.rows|
      invariant 0 <= i <= |fc.rows| == |original|
      invariant fc.schema == old(fc.schema) && fc.Valid()
      invariant forall k :: 0 <= k < i ==> fc.rows[k] == SelfUpdateRow(original[k], updates)
      invariant forall k :: i <= k < |original| ==> fc.rows[k] == original[k]
      invariant Distinct(reported) && (set f | f in reported) == populated
      invariant forall f :: f in reported ==> IsTarget(updates, f)
    {
      var row;
      row, populated, reported := CopyWithinRow(fc.rows[i], updates, populated, reported);
      forall f ensures f in row <==> f in original[i] {
        SelfUpdateRowKeys(original[i], updates, f);
        if IsTarget(updates, f) {
          var a :| 0 <= a < |updates| && f in updates[a].targets;
          AllFieldsMember(updates, a);
        }
      }
      fc.rows := fc.rows[i := row];
      i := i + 1;
    }
  }

  /** One row of the update cursor: the tuples in order, each copying the row's current source value
      into its targets, with the fields found already populated reported once each across the run. */
  method CopyWithinRow(row: Row, updates: seq<SelfUpdate>, populated: set<string>, reported: seq<string>)
    returns (newRow: Row, populatedAfter: set<string>, reportedAfter: seq<string>)
    requires Distinct(reported) && (set f | f in reported) == populated
    requires forall f :: f in reported ==> IsTarget(updates, f)
    ensures newRow == SelfUpdateRow(row, updates)
    ensures Distinct(reportedAfter) && (set f | f in reportedAfter) == populatedAfter
    ensures forall f :: f in reportedAfter ==> IsTarget(updates, f)
    ensures reported <= reportedAfter
  {
    newRow, populatedAfter, reportedAfter := row, populated, reported;
    var j := 0;
    while j < |updates|
      invariant 0 <= j <= |updates|
      invariant newRow == SelfUpdateRow(row, updates[..j])
      invariant Distinct(reportedAfter) && (set f | f in reportedAfter) == populatedAfter
      invariant forall f :: f in reportedAfter ==> IsTarget(updates, f)
      invariant reported <= reportedAfter
    {
      assert updates[..j + 1][..j] == updates[..j];
      var u := updates[j];
      ghost var before := newRow;
      var sourceValue := Get(newRow, u.source);
      var k := 0;
      while k < |u.targets|
        invariant 0 <= k <= |u.targets|
        invariant newRow == WriteTargets(before, u.targets[..k], sourceValue)
        invariant Distinct(reportedAfter) && (set f | f in reportedAfter) == populatedAfter
        invariant forall f :: f in reportedAfter ==> IsTarget(updates, f)
        invariant reported <= reportedAfter
      {
        assert u.targets[..k + 1][..k] == u.targets[..k];
        var target := u.targets[k];
        if !IsEmptyCell(Get(newRow, target)) && target !in populatedAfter {
          reportedAfter := reportedAfter + [target];
          populatedAfter := populatedAfter + {target};
        }
        newRow := newRow[target := Converted(target, sourceValue)];
        k := k + 1;
      }
      assert u.targets[..k] == u.targets;
      j := j + 1;
    }
    assert updates[..j] == updates;
  }

  /** The self-update adds the target fields to a row and no others. */
  lemma {:induction false} SelfUpdateRowKeys(row: Row, updates: seq<SelfUpdate>, f: string)
    ensures f in SelfUpdateRow(row, updates) <==> f in row || IsTarget(updates, f)
    decreases |updates|
  {
    if |updates| > 0 {
      var n := |updates| - 1;
      SelfUpdateRowKeys(row, updates[..n], f);
      var r := SelfUpdateRow(row, updates[..n]);
      WriteTargetsEffect(r, updates[n].targets, Get(r, updates[n].source), f);
      if a :| 0 <= a < n && f in updates[..n][a].targets {
        assert updates[a] == updates[..n][a];
      }
      if a :| 0 <= a < n && f in updates[a].targets {
        assert updates[..n][a] == updates[a];
      }
    }
  }

  /** The cursor's field list names every source and target of every tuple. */
  lemma {:induction false} AllFieldsMember(updates: seq<SelfUpdate>, j: nat)
    requires j < |updates|
    ensures updates[j].source in AllFields(updates)
    ensures forall t :: t in updates[j].targets ==> t in AllFields(updates)
    decreases |updates|
  {
    var n := |updates| - 1;
    if j < n {
      AllFieldsMember(updates[..n], j);
      assert updates[..n][j] == updates[j];
    }
  }

  // ---------------------------------------------------------------- update_field_based_on_whether_it_lies

  /** One item of join_layers: the features of the join layer and the value it assigns. */
  datatype JoinLayer = JoinLayer(features: seq<Row>, value: Value)

  /** The row intersects some feature of the layer. */
  predicate IntersectsLayer(row: Row, features: seq<Row>, intersects: Relation)
  {
    exists f :: f in features && intersects(Get(row, ShapeToken), Get(f, ShapeToken))
  }

  /** SelectLayerByLocation(target, "INTERSECT", layer) selects no target row. A cursor opened on a layer
      whose selection is empty visits every feature of the layer, so the cursors that follow such a
      selection see all target rows. A layer without features selects nothing. */
  predicate NoneIntersect(target: seq<Row>, features: seq<Row>, intersects: Relation)
  {
    forall k :: 0 <= k < |target| ==> !IntersectsLayer(target[k], features, intersects)
  }

  /** A cursor on the target layer visits the row: the row intersects the layer, or the selection came
      out empty (everyRow) and the cursor visits them all. */
  predicate Visited(row: Row, features: seq<Row>, intersects: Relation, everyRow: bool)
  {
    everyRow || IntersectsLayer(row, features, intersects)
  }

  /** After SelectLayerByLocation of target by the layer, a cursor on the target layer visits the row. */
  predicate Selects(target: seq<Row>, row: Row, features: seq<Row>, intersects: Relation)
  {
    Visited(row, features, intersects, NoneIntersect(target, features, intersects))
  }

  /** Two row sequences that agree on geometry come out of a selection alike. */
  lemma NoneIntersectSame(rows: seq<Row>, others: seq<Row>, features: seq<Row>, intersects: Relation)
    requires |rows| == |others|
    requires forall k :: 0 <= k < |rows| ==> Get(rows[k], ShapeToken) == Get(others[k], ShapeToken)
    ensures NoneIntersect(rows, features, intersects) == NoneIntersect(others, features, intersects)
  {
    forall k | 0 <= k < |rows|
      ensures IntersectsLayer(rows[k], features, intersects) == IntersectsLayer(others[k], features, intersects)
    {
      assert Get(rows[k], ShapeToken) == Get(others[k], ShapeToken);
    }
  }

  /** The target rows and the set updated_features. */
  datatype Tagging = Tagging(rows: seq<Row>, updated: set<Value>)

  /** One join layer's update cursor: each row it visits whose id is not yet in updated_features
      takes the layer's value in valueField, and its id is recorded. */
  function TagRows(rows: seq<Row>, updated: set<Value>, layer: JoinLayer, valueField: string, idField: string,
                   intersects: Relation, everyRow: bool): (t: Tagging)
    ensures |t.rows| == |rows|
    ensures forall k, f :: 0 <= k < |rows| && f != valueField ==> Get(t.rows[k], f) == Get(rows[k], f)
    decreases |rows|
  {
    if |rows| == 0 then Tagging([], updated)
    else
      var n := |rows| - 1;
      var t := TagRows(rows[..n], updated, layer, valueField, idField, intersects, everyRow);
      var r := rows[n];
      if Visited(r, layer.features, intersects, everyRow) && Get(r, idField) !in t.updated
      then Tagging(t.rows + [r[valueField := layer.value]], t.updated + {Get(r, idField)})
      else Tagging(t.rows + [r], t.updated)
  }

  /** All join layers in dict order, starting from an empty updated_features. Each layer selects the
      target rows as the earlier layers left them. */
  function TagLayers(rows: seq<Row>, layers: seq<JoinLayer>, valueField: string, idField: string,
                     intersects: Relation): (t: Tagging)
    ensures |t.rows| == |rows|
    ensures forall k, f :: 0 <= k < |rows| && f != valueField ==> Get(t.rows[k], f) == Get(rows[k], f)
    decreases |layers|
  {
    if |layers| == 0 then Tagging(rows, {})
    else
      var t := TagLayers(rows, layers[..|layers| - 1], valueField, idField, intersects);
      var layer := layers[|layers| - 1];
      TagRows(t.rows, t.updated, layer, valueField, idField, intersects, NoneIntersect(t.rows, layer.features, intersects))
  }

  /** The index of the first join layer whose selection of target holds the row, if any. */
  function FirstSelecting(target: seq<Row>, row: Row, layers: seq<JoinLayer>, intersects: Relation): (r: Option<nat>)
    ensures r.Some? ==> r.value < |layers|
    decreases |layers|
  {
    if |layers| == 0 then None
    else
      var f := FirstSelecting(target, row, layers[..|layers| - 1], intersects);
      if f.Some? then f
      else if Selects(target, row, layers[|layers| - 1].features, intersects) then Some(|layers| - 1)
      else None
  }

  /** FirstSelecting names the first layer that selects the row, and None means no layer does. */
  lemma {:induction false} FirstSelectingSpec(target: seq<Row>, row: Row, layers: seq<JoinLayer>, intersects: Relation)
    ensures match FirstSelecting(target, row, layers, intersects)
            case Some(j) => Selects(target, row, layers[j].features, intersects) &&
                            forall k :: 0 <= k < j ==> !Selects(target, row, layers[k].features, intersects)
            case None => forall k :: 0 <= k < |layers| ==> !Selects(target, row, layers[k].features, intersects)
    decreases |layers|
  {
    if |layers| > 0 {
      var n := |layers| - 1;
      FirstSelectingSpec(target, row, layers[..n], intersects);
      forall k | 0 <= k < n ensures layers[..n][k] == layers[k] { }
    }
  }

  /** A join layer that intersects no target row selects them all: every row is taken by that layer
      or by an earlier one. */
  lemma EmptySelectionTakesAll(target: seq<Row>, row: Row, layers: seq<JoinLayer>, intersects: Relation, j: nat)
    requires j < |layers| && NoneIntersect(target, layers[j].features, intersects)
    ensures FirstSelecting(target, row, layers, intersects).Some?
    ensures FirstSelecting(target, row, layers, intersects).value <= j
  {
    FirstSelectingSpec(target, row, layers, intersects);
    assert Selects(target, row, layers[j].features, intersects);
  }

  /** The row as the first layer that selects it leaves it. */
  function Assigned(target: seq<Row>, row: Row, layers: seq<JoinLayer>, valueField: string, intersects: Relation): Row
  {
    match FirstSelecting(target, row, layers, intersects)
    case Some(j) => row[valueField := layers[j].value]
    case None => row
  }

  function Ids(rows: seq<Row>, idField: string): (ids: seq<Value>)
    ensures |ids| == |rows| && forall i :: 0 <= i < |rows| ==> ids[i] == Get(rows[i], idField)
  {
    seq(|rows|, i requires 0 <= i < |rows| => Get(rows[i], idField))
  }

  lemma DistinctIdsPrefix(rows: seq<Row>, idField: string, n: nat)
    requires n <= |rows| && Distinct(Ids(rows, idField))
    ensures Distinct(Ids(rows[..n], idField))
  {
    forall a, b | 0 <= a < b < n ensures Ids(rows[..n], idField)[a] != Ids(rows[..n], idField)[b] {
      assert Ids(rows, idField)[a] != Ids(rows, idField)[b];
    }
  }

  /** The fields a tagging pass must not touch: the geometry it tests and the id it records. */
  predicate TaggingFieldsApart(valueField: string, idField: string)
  {
    valueField != idField && valueField != ShapeToken
  }

  /** Some row the cursor visits carries id v. */
  predicate HitBy(rows: seq<Row>, features: seq<Row>, idField: string, intersects: Relation, everyRow: bool, v: Value)
  {
    exists k :: 0 <= k < |rows| && Visited(rows[k], features, intersects, everyRow) && Get(rows[k], idField) == v
  }

  lemma HitBySnoc(rows: seq<Row>, features: seq<Row>, idField: string, intersects: Relation, everyRow: bool, v: Value)
    requires |rows| > 0
    ensures HitBy(rows, features, idField, intersects, everyRow, v) <==>
            HitBy(rows[..|rows| - 1], features, idField, intersects, everyRow, v) ||
            (Visited(rows[|rows| - 1], features, intersects, everyRow) && Get(rows[|rows| - 1], idField) == v)
  {
    var n := |rows| - 1;
    if k :| 0 <= k < |rows| && Visited(rows[k], features, intersects, everyRow) && Get(rows[k], idField) == v {
      if k < n {
        assert rows[..n][k] == rows[k];
      }
    }
    if k :| 0 <= k < n && Visited(rows[..n][k], features, intersects, everyRow) && Get(rows[..n][k], idField) == v {
      assert rows[k] == rows[..n][k];
    }
  }

  /** Two row sequences that agree on geometry and id are hit alike. */
  lemma HitBySame(rows: seq<Row>, others: seq<Row>, features: seq<Row>, idField: string, intersects: Relation,
                  everyRow: bool, v: Value)
    requires |rows| == |others|
    requires forall k :: 0 <= k < |rows| ==> Get(rows[k], ShapeToken) == Get(others[k], ShapeToken)
    requires forall k :: 0 <= k < |rows| ==> Get(rows[k], idField) == Get(others[k], idField)
    ensures HitBy(rows, features, idField, intersects, everyRow, v) <==> HitBy(others, features, idField, intersects, everyRow, v)
  {
    if k :| 0 <= k < |rows| && Visited(rows[k], features, intersects, everyRow) && Get(rows[k], idField) == v {
      assert Visited(others[k], features, intersects, everyRow);
    }
    if k :| 0 <= k < |others| && Visited(others[k], features, intersects, everyRow) && Get(others[k], idField) == v {
      assert Visited(rows[k], features, intersects, everyRow);
    }
  }

  /** One pass adds to updated_features exactly the ids of the rows its cursor visits. */
  lemma {:induction false} TagRowsUpdated(rows: seq<Row>, updated: set<Value>, layer: JoinLayer, valueField: string,
                                          idField: string, intersects: Relation, everyRow: bool, v: Value)
    ensures v in TagRows(rows, updated, layer, valueField, idField, intersects, everyRow).updated <==>
            v in updated || HitBy(rows, layer.features, idField, intersects, everyRow, v)
    decreases |rows|
  {
    if |rows| > 0 {
      TagRowsUpdated(rows[..|rows| - 1], updated, layer, valueField, idField, intersects, everyRow, v);
      HitBySnoc(rows, layer.features, idField, intersects, everyRow, v);
    }
  }

  /** With distinct ids, one pass gives the layer's value to exactly the visited rows not yet updated. */
  lemma {:induction false} TagRowsRow(rows: seq<Row>, updated: set<Value>, layer: JoinLayer, valueField: string,
                                      idField: string, intersects: Relation, everyRow: bool, k: nat)
    requires Distinct(Ids(rows, idField)) && k < |rows|
    ensures TagRows(rows, updated, layer, valueField, idField, intersects, everyRow).rows[k] ==
            if Visited(rows[k], layer.features, intersects, everyRow) && Get(rows[k], idField) !in updated
            then rows[k][valueField := layer.value] else rows[k]
    decreases |rows|
  {
    var n := |rows| - 1;
    var pre := rows[..n];
    DistinctIdsPrefix(rows, idField, n);
    if k < n {
      TagRowsRow(pre, updated, layer, valueField, idField, intersects, everyRow, k);
      assert pre[k] == rows[k];
    } else {
      var id := Get(rows[n], idField);
      TagRowsUpdated(pre, updated, layer, valueField, idField, intersects, everyRow, id);
      forall m | 0 <= m < n ensures Get(pre[m], idField) != id {
        assert Ids(rows, idField)[m] != Ids(rows, idField)[n];
      }
      assert !HitBy(pre, layer.features, idField, intersects, everyRow, id);
    }
  }

  /** Some row that some layer selects carries id v: v is a recorded id. */
  predicate AssignedBy(rows: seq<Row>, layers: seq<JoinLayer>, idField: string, intersects: Relation, v: Value)
  {
    exists k :: 0 <= k < |rows| && FirstSelecting(rows, rows[k], layers, intersects).Some? && Get(rows[k], idField) == v
  }

  lemma AssignedBySnoc(rows: seq<Row>, layers: seq<JoinLayer>, idField: string, intersects: Relation, v: Value)
    requires |layers| > 0
    ensures AssignedBy(rows, layers, idField, intersects, v) <==>
            AssignedBy(rows, layers[..|layers| - 1], idField, intersects, v) ||
            HitBy(rows, layers[|layers| - 1].features, idField, intersects,
                  NoneIntersect(rows, layers[|layers| - 1].features, intersects), v)
  {
    var pre := layers[..|layers| - 1];
    var L := layers[|layers| - 1];
    var all := NoneIntersect(rows, L.features, intersects);
    if k :| 0 <= k < |rows| && FirstSelecting(rows, rows[k], layers, intersects).Some? && Get(rows[k], idField) == v {
      if !FirstSelecting(rows, rows[k], pre, intersects).Some? {
        assert Visited(rows[k], L.features, intersects, all);
      }
    }
    if k :| 0 <= k < |rows| && FirstSelecting(rows, rows[k], pre, intersects).Some? && Get(rows[k], idField) == v {
      assert FirstSelecting(rows, rows[k], layers, intersects).Some?;
    }
    if k :| 0 <= k < |rows| && Visited(rows[k], L.features, intersects, all) && Get(rows[k], idField) == v {
      assert FirstSelecting(rows, rows[k], layers, intersects).Some?;
    }
  }

  /** A tagging pass leaves geometry alone, so every layer selects as it would on the rows as read. */
  lemma TagLayersSelectsAlike(rows: seq<Row>, layers: seq<JoinLayer>, valueField: string, idField: string,
                              intersects: Relation, features: seq<Row>)
    requires TaggingFieldsApart(valueField, idField)
    ensures var t := TagLayers(rows, layers, valueField, idField, intersects);
            NoneIntersect(t.rows, features, intersects) == NoneIntersect(rows, features, intersects)
  {
    var t := TagLayers(rows, layers, valueField, idField, intersects);
    NoneIntersectSame(t.rows, rows, features, intersects);
  }

  /** updated_features ends up holding exactly the ids of the rows some layer selects. */
  lemma {:induction false} TagLayersUpdated(rows: seq<Row>, layers: seq<JoinLayer>, valueField: string,
                                            idField: string, intersects: Relation, v: Value)
    requires TaggingFieldsApart(valueField, idField)
    ensures v in TagLayers(rows, layers, valueField, idField, intersects).updated <==>
            AssignedBy(rows, layers, idField, intersects, v)
    decreases |layers|
  {
    if |layers| > 0 {
      var n := |layers| - 1;
      var pre := layers[..n];
      var L := layers[n];
      TagLayersUpdated(rows, pre, valueField, idField, intersects, v);
      var t := TagLayers(rows, pre, valueField, idField, intersects);
      TagLayersSelectsAlike(rows, pre, valueField, idField, intersects, L.features);
      var all := NoneIntersect(rows, L.features, intersects);
      TagRowsUpdated(t.rows, t.updated, L, valueField, idField, intersects, all, v);
      HitBySame(t.rows, rows, L.features, idField, intersects, all, v);
      AssignedBySnoc(rows, layers, idField, intersects, v);
    }
  }

  /** With distinct ids, no other row carries the id of row k. */
  lemma DistinctIdsOthers(rows: seq<Row>, idField: string, k: nat)
    requires Distinct(Ids(rows, idField)) && k < |rows|
    ensures forall m :: 0 <= m < |rows| && m != k ==> Get(rows[m], idField) != Get(rows[k], idField)
  {
    forall m | 0 <= m < |rows| && m != k ensures Get(rows[m], idField) != Get(rows[k], idField) {
      if m < k {
        assert Ids(rows, idField)[m] != Ids(rows, idField)[k];
      } else {
        assert Ids(rows, idField)[k] != Ids(rows, idField)[m];
      }
    }
  }

  /** update_field_based_on_whether_it_lies, for rows with distinct ids: a row takes the value of the
      FIRST join layer, in dict order, that selects it (that it intersects, or that intersects no target
      row at all); later layers never overwrite it, and a row no layer selects is untouched. */
  lemma {:induction false} TagLayersFirstWins(rows: seq<Row>, layers: seq<JoinLayer>, valueField: string,
                                              idField: string, intersects: Relation, k: nat)
    requires Distinct(Ids(rows, idField)) && TaggingFieldsApart(valueField, idField) && k < |rows|
    ensures TagLayers(rows, layers, valueField, idField, intersects).rows[k] ==
            Assigned(rows, rows[k], layers, valueField, intersects)
    decreases |layers|
  {
    if |layers| > 0 {
      var n := |layers| - 1;
      var pre := layers[..n];
      var L := layers[n];
      TagLayersFirstWins(rows, pre, valueField, idField, intersects, k);
      var t := TagLayers(rows, pre, valueField, idField, intersects);
      assert Ids(t.rows, idField) == Ids(rows, idField);
      TagLayersSelectsAlike(rows, pre, valueField, idField, intersects, L.features);
      var all := NoneIntersect(rows, L.features, intersects);
      TagRowsRow(t.rows, t.updated, L, valueField, idField, intersects, all, k);
      var id := Get(rows[k], idField);
      TagLayersUpdated(rows, pre, valueField, idField, intersects, id);
      DistinctIdsOthers(rows, idField, k);
      assert Visited(t.rows[k], L.features, intersects, all) == Selects(rows, rows[k], L.features, intersects) by {
        assert Get(t.rows[k], ShapeToken) == Get(rows[k], ShapeToken);
      }
    }
  }

  /** The ids of the rows some join layer selects. */
  function AssignedIds(rows: seq<Row>, layers: seq<JoinLayer>, idField: string, intersects: Relation): set<Value>
  {
    set k | 0 <= k < |rows| && FirstSelecting(rows, rows[k], layers, intersects).Some? :: Get(rows[k], idField)
  }

  /** total_updated_features counts the distinct ids of the rows some join layer selects. */
  lemma TaggedCount(rows: seq<Row>, layers: seq<JoinLayer>, valueField: string, idField: string, intersects: Relation)
    requires TaggingFieldsApart(valueField, idField)
    ensures TagLayers(rows, layers, valueField, idField, intersects).updated == AssignedIds(rows, layers, idField, intersects)
  {
    forall v ensures v in TagLayers(rows, layers, valueField, idField, intersects).updated <==>
                     v in AssignedIds(rows, layers, idField, intersects) {
      TagLayersUpdated(rows, layers, valueField, idField, intersects, v);
    }
  }

  /** One more row of a layer's pass, as the cursor sees it: the row is tagged when the cursor visits it
      and its id is new. */
  lemma TagRowsStep(rows: seq<Row>, i: nat, updated: set<Value>, layer: JoinLayer, valueField: string, idField: string,
                    intersects: Relation, everyRow: bool, done: seq<Row>, updatedNow: set<Value>)
    requires i < |rows|
    requires TagRows(rows[..i], updated, layer, valueField, idField, intersects, everyRow) == Tagging(done, updatedNow)
    ensures var r := rows[i];
            var hit := Visited(r, layer.features, intersects, everyRow) && Get(r, idField) !in updatedNow;
            TagRows(rows[..i + 1], updated, layer, valueField, idField, intersects, everyRow) ==
            Tagging(done + [if hit then r[valueField := layer.value] else r],
                    if hit then updatedNow + {Get(r, idField)} else updatedNow)
  {
    assert rows[..i + 1][..i] == rows[..i];
  }

  /** One join layer's update cursor over the rows its selection holds (every row when everyRow). */
  method TagVisited(target: FeatureClass, layer: JoinLayer, updated: set<Value>, valueField: string, idField: string,
                    intersects: Relation, everyRow: bool)
    returns (updatedAfter: set<Value>)
    requires target.Valid() && target.HasField(valueField)
    modifies target
    ensures target.Valid() && target.schema == old(target.schema)
    ensures Tagging(target.rows, updatedAfter) ==
            TagRows(old(target.rows), updated, layer, valueField, idField, intersects, everyRow)
  {
    ghost var before := target.rows;
    updatedAfter := updated;
    var i := 0;
    while i < |target.rows|
      invariant 0 <= i <= |target.rows| == |before|
      invariant target.schema == old(target.schema) && target.Valid()
      invariant TagRows(before[..i], updated, layer, valueField, idField, intersects, everyRow) ==
                Tagging(target.rows[..i], updatedAfter)
      invariant target.rows[i..] == before[i..]
    {
      var row := target.rows[i];
      assert row == before[i] by {
        assert target.rows[i..][0] == before[i..][0];
      }
      TagRowsStep(before, i, updated, layer, valueField, idField, intersects, everyRow, target.rows[..i], updatedAfter);
      ghost var rowsBefore := target.rows;
      if Visited(row, layer.features, intersects, everyRow) && Get(row, idField) !in updatedAfter {
        target.UpdateRow(i, row[valueField := layer.value]);
        updatedAfter := updatedAfter + {Get(row, idField)};
      }
      assert target.rows[..i + 1] == rowsBefore[..i] + [target.rows[i]];
      assert target.rows[i + 1..] == rowsBefore[i + 1..];
      assert before[i + 1..] == before[i..][1..];
      i := i + 1;
    }
    assert before[..i] == before;
    assert target.rows[..i] == target.rows;
  }

  /** One join layer: SelectLayerByLocation on the target layer, then the update cursor. */
  method TagLayer(target: FeatureClass, layer: JoinLayer, updated: set<Value>, valueField: string, idField: string,
                  intersects: Relation)
    returns (updatedAfter: set<Value>)
    requires target.Valid() && target.HasField(valueField)
    modifies target
    ensures target.Valid() && target.schema == old(target.schema)
    ensures Tagging(target.rows, updatedAfter) ==
            TagRows(old(target.rows), updated, layer, valueField, idField, intersects,
                    NoneIntersect(old(target.rows), layer.features, intersects))
  {
    var everyRow := NoneIntersect(target.rows, layer.features, intersects);
    updatedAfter := TagVisited(target, layer, updated, valueField, idField, intersects, everyRow);
  }

  /** update_field_based_on_whether_it_lies: the join layers in dict order, each selecting the target
      rows it intersects (all of them when it intersects none) and tagging those not yet updated.
      Returns total_updated_features. */
  method UpdateFieldBasedOnWhetherItLies(target: FeatureClass, joinLayers: seq<JoinLayer>, valueField: string,
                                         idField: string, intersects: Relation)
    returns (totalUpdated: nat)
    requires target.Valid() && target.HasField(valueField) && target.HasField(idField)
    modifies target
    ensures target.Valid() && target.schema == old(target.schema)
    ensures target.rows == TagLayers(old(target.rows), joinLayers, valueField, idField, intersects).rows
    ensures totalUpdated == |TagLayers(old(target.rows), joinLayers, valueField, idField, intersects).updated|
  {
    ghost var original := target.rows;
    var updatedFeatures: set<Value> := {};
    var l := 0;
    while l < |joinLayers|
      invariant 0 <= l <= |joinLayers|
      invariant target.schema == old(target.schema) && target.Valid()
      invariant Tagging(target.rows, updatedFeatures) == TagLayers(original, joinLayers[..l], valueField, idField, intersects)
    {
      assert joinLayers[..l + 1][..l] == joinLayers[..l];
      updatedFeatures := TagLayer(target, joinLayers[l], updatedFeatures, valueField, idField, intersects);
      l := l + 1;
    }
    assert joinLayers[..l] == joinLayers;
    totalUpdated := |updatedFeatures|;
  }

  // ---------------------------------------------------------------- update_voltage_from_multiple_sources (shared part)

  /** The OBJECTIDs a search cursor on the target layer yields, in cursor order, over the rows it visits. */
  function VisitedIds(target: seq<Row>, features: seq<Row>, intersects: Relation, everyRow: bool): seq<Value>
    decreases |target|
  {
    if |target| == 0 then []
    else
      var n := |target| - 1;
      VisitedIds(target[..n], features, intersects, everyRow) +
        (if Visited(target[n], features, intersects, everyRow) then [Get(target[n], ObjectIdField)] else [])
  }

  /** intersecting_ids: the OBJECTIDs the search cursor on the target layer yields after
      SelectLayerByLocation(INTERSECT) on one source layer. */
  function SelectedIds(target: seq<Row>, features: seq<Row>, intersects: Relation): seq<Value>
  {
    VisitedIds(target, features, intersects, NoneIntersect(target, features, intersects))
  }

  lemma {:induction false} VisitedIdsMember(target: seq<Row>, features: seq<Row>, intersects: Relation, everyRow: bool,
                                            x: Value)
    ensures x in VisitedIds(target, features, intersects, everyRow) <==>
            HitBy(target, features, ObjectIdField, intersects, everyRow, x)
    decreases |target|
  {
    if |target| > 0 {
      VisitedIdsMember(target[..|target| - 1], features, intersects, everyRow, x);
      HitBySnoc(target, features, ObjectIdField, intersects, everyRow, x);
    }
  }

  /** An id is collected exactly when the selection holds a target row with that id. */
  lemma SelectedIdsMember(target: seq<Row>, features: seq<Row>, intersects: Relation, x: Value)
    ensures x in SelectedIds(target, features, intersects) <==>
            exists k :: 0 <= k < |target| && Selects(target, target[k], features, intersects) &&
                        Get(target[k], ObjectIdField) == x
  {
    VisitedIdsMember(target, features, intersects, NoneIntersect(target, features, intersects), x);
  }

  /** A search cursor that visits every row yields every OBJECTID, in cursor order. */
  lemma {:induction false} VisitedIdsAll(target: seq<Row>, features: seq<Row>, intersects: Relation)
    ensures VisitedIds(target, features, intersects, true) == Ids(target, ObjectIdField)
    decreases |target|
  {
    if |target| > 0 {
      var n := |target| - 1;
      VisitedIdsAll(target[..n], features, intersects);
      assert Ids(target, ObjectIdField) == Ids(target[..n], ObjectIdField) + [Get(target[n], ObjectIdField)];
    }
  }

  /** A source layer that intersects no target row (one without features among them) collects every
      OBJECTID of the target, in cursor order. */
  lemma EmptySelectionCollectsAll(target: seq<Row>, features: seq<Row>, intersects: Relation)
    requires NoneIntersect(target, features, intersects)
    ensures SelectedIds(target, features, intersects) == Ids(target, ObjectIdField)
  {
    VisitedIdsAll(target, features, intersects);
  }

  /** The source layer writes a voltage for x: it has features, and its selection holds x. */
  predicate Feeds(target: seq<Row>, layer: seq<Row>, intersects: Relation, x: Value)
  {
    |layer| > 0 && x in SelectedIds(target, layer, intersects)
  }

  /** The values of one field over all features of a source layer, in cursor order. */
  function FieldValues(features: seq<Row>, field: string): (vs: seq<Value>)
    ensures |vs| == |features| && forall i :: 0 <= i < |features| ==> vs[i] == Get(features[i], field)
  {
    seq(|features|, i requires 0 <= i < |features| => Get(features[i], field))
  }

  /** The final update cursor runs on the target layer, which still holds the selection made for the
      last source layer: it visits the rows that selection holds. */
  predicate InLastSelection(target: seq<Row>, row: Row, sources: seq<seq<Row>>, intersects: Relation)
  {
    |sources| > 0 && Selects(target, row, sources[|sources| - 1], intersects)
  }

  /** A row of the last selection is fed by the last layer when that layer has features. */
  lemma LastLayerFeedsSelection(target: seq<Row>, sources: seq<seq<Row>>, intersects: Relation, k: nat)
    requires k < |target| && InLastSelection(target, target[k], sources, intersects)
    requires |sources[|sources| - 1]| > 0
    ensures Feeds(target, sources[|sources| - 1], intersects, Get(target[k], ObjectIdField))
  {
    SelectedIdsMember(target, sources[|sources| - 1], intersects, Get(target[k], ObjectIdField));
  }

  // ---------------------------------------------------------------- station classification

  const StationGuidField: string := "MIG_STATIONGUID"
  const LineStatusField: string := "LINE_STATUS"
  const PointStatusField: string := "POINT_STATUS"

  /** {row[0]: row[1] for row in SearchCursor(station_fc, ['GLOBALID', 'SHAPE@'])} */
  function StationDict(stations: seq<Row>): Dict<Value, Value>
  {
    DictFromPairs(seq(|stations|, i requires 0 <= i < |stations| => (Get(stations[i], GlobalIdField), Get(stations[i], ShapeToken))))
  }

  /** station_dict.items(): (GLOBALID, polygon) in key order. */
  function Items(d: Dict<Value, Value>): (items: seq<(Value, Value)>)
    ensures |items| == |d.keys|
  {
    seq(|d.keys|, i requires 0 <= i < |d.keys| => (d.keys[i], if d.keys[i] in d.values then d.values[d.keys[i]] else Null))
  }

  /** The station a row is assigned to and its status text. */
  datatype Classification = Classification(station: Value, status: string)

  /** The inner for-loop with break: the first station for which `first` holds gives 'Inside', else
      the first for which `second` holds gives secondLabel; a row matching no station is 'Outside'. */
  function Classify(shape: Value, items: seq<(Value, Value)>, first: Relation, second: Relation,
                    secondLabel: string): Classification
    decreases |items|
  {
    if |items| == 0 then Classification(Null, "Outside")
    else if first(shape, items[0].1) then Classification(items[0].0, "Inside")
    else if second(shape, items[0].1) then Classification(items[0].0, secondLabel)
    else Classify(shape, items[1..], first, second, secondLabel)
  }

  predicate Matches(shape: Value, item: (Value, Value), first: Relation, second: Relation)
  {
    first(shape, item.1) || second(shape, item.1)
  }

  /** The first station in iteration order that the shape is within, or else satisfies the second
      relation with, decides the classification and gives its GLOBALID. */
  lemma {:induction false} ClassifyFirstMatch(shape: Value, items: seq<(Value, Value)>, first: Relation,
                                              second: Relation, secondLabel: string, j: nat)
    requires j < |items| && Matches(shape, items[j], first, second)
    requires forall k :: 0 <= k < j ==> !Matches(shape, items[k], first, second)
    ensures Classify(shape, items, first, second, secondLabel) ==
            Classification(items[j].0, if first(shape, items[j].1) then "Inside" else secondLabel)
    decreases j
  {
    if j > 0 {
      assert !Matches(shape, items[0], first, second);
      forall k | 0 <= k < j - 1 ensures !Matches(shape, items[1..][k], first, second) {
        assert items[1..][k] == items[k + 1];
      }
      ClassifyFirstMatch(shape, items[1..], first, second, secondLabel, j - 1);
    }
  }

  /** A shape that matches no station is 'Outside' with no station GLOBALID. */
  lemma {:induction false} ClassifyNoMatch(shape: Value, items: seq<(Value, Value)>, first: Relation,
                                           second: Relation, secondLabel: string)
    requires forall k :: 0 <= k < |items| ==> !Matches(shape, items[k], first, second)
    ensures Classify(shape, items, first, second, secondLabel) == Classification(Null, "Outside")
    decreases |items|
  {
    if |items| > 0 {
      assert !Matches(shape, items[0], first, second);
      forall k | 0 <= k < |items| - 1 ensures !Matches(shape, items[1..][k], first, second) {
        assert items[1..][k] == items[k + 1];
      }
      ClassifyNoMatch(shape, items[1..], first, second, secondLabel);
    }
  }

  /** The cursor's write: row[1] = station GLOBALID (or None), row[2] = status. */
  function ClassifyRow(row: Row, items: seq<(Value, Value)>, statusField: string, first: Relation,
                       second: Relation, secondLabel: string): Row
  {
    var c := Classify(Get(row, ShapeToken), items, first, second, secondLabel);
    row[StationGuidField := c.station][statusField := Str(c.status)]
  }

  /** The row after the whole call: when the call had to add the status field it deletes it again. */
  function ClassifiedRow(row: Row, added: bool, fieldName: string, items: seq<(Value, Value)>, statusField: string,
                         first: Relation, second: Relation, secondLabel: string): Row
  {
    if added then ClassifyRow(row[fieldName := Null], items, statusField, first, second, secondLabel) - {fieldName}
    else ClassifyRow(row, items, statusField, first, second, secondLabel)
  }

  /** When the default status field was missing, the statuses the cursor wrote are deleted with the
      field: only the station GLOBALID survives. */
  lemma StatusDiscardedWhenFieldAdded(row: Row, items: seq<(Value, Value)>, statusField: string, first: Relation,
                                      second: Relation, secondLabel: string)
    requires statusField !in row && statusField != StationGuidField
    ensures ClassifiedRow(row, true, statusField, items, statusField, first, second, secondLabel) ==
            row[StationGuidField := Classify(Get(row, ShapeToken), items, first, second, secondLabel).station]
  {
    var c := Classify(Get(row, ShapeToken), items, first, second, secondLabel);
    var lhs := ClassifiedRow(row, true, statusField, items, statusField, first, second, secondLabel);
    var c' := Classify(Get(row[statusField := Null], ShapeToken), items, first, second, secondLabel);
    if statusField == ShapeToken {
      assert Get(row, ShapeToken) == Null;
    }
    assert c' == c;
    assert lhs == row[StationGuidField := c.station];
  }

  /** The inner for-loop over station_dict.items() with its break, for one feature's shape. */
  method ClassifyShape(shape: Value, items: seq<(Value, Value)>, first: Relation, second: Relation,
                       secondLabel: string)
    returns (station: Value, status: string)
    ensures Classification(station, status) == Classify(shape, items, first, second, secondLabel)
  {
    var j := 0;
    while j < |items|
      invariant 0 <= j <= |items|
      invariant Classify(shape, items[j..], first, second, secondLabel) == Classify(shape, items, first, second, secondLabel)
    {
      var stationGlobalId := items[j].0;
      var stationPolygon := items[j].1;
      assert items[j..][0] == items[j];
      assert items[j..][1..] == items[j + 1..];
      if first(shape, stationPolygon) {
        return stationGlobalId, "Inside";
      } else if second(shape, stationPolygon) {
        return stationGlobalId, secondLabel;
      }
      j := j + 1;
    }
    return Null, "Outside";
  }

  /** The update cursor over [SHAPE@, MIG_STATIONGUID, statusField]. */
  method WriteClassifications(fc: FeatureClass, items: seq<(Value, Value)>, statusField: string, first: Relation,
                              second: Relation, secondLabel: string)
    requires fc.Valid() && fc.HasField(StationGuidField) && fc.HasField(statusField)
    modifies fc
    ensures fc.Valid() && fc.schema == old(fc.schema)
    ensures |fc.rows| == |old(fc.rows)|
    ensures forall k :: 0 <= k < |fc.rows| ==> fc.rows[k] == ClassifyRow(old(fc.rows)[k], items, statusField, first, second, secondLabel)
  {
    ghost var original := fc.rows;
    var i := 0;
    while i < |fc.rows|
      invariant 0 <= i <= |fc.rows| == |original|
      invariant fc.Valid() && fc.schema == old(fc.schema)
      invariant forall k :: 0 <= k < i ==> fc.rows[k] == ClassifyRow(original[k], items, statusField, first, second, secondLabel)
      invariant forall k :: i <= k < |fc.rows| ==> fc.rows[k] == original[k]
    {
      var row := fc.rows[i];
      var station, status := ClassifyShape(Get(row, ShapeToken), items, first, second, secondLabel);
      fc.rows := fc.rows[i := row[StationGuidField := station][statusField := Str(status)]];
      i := i + 1;
    }
  }

  /** The shared body of update_line_fc_within_station_boundary and update_point_fc_within_station_boundary:
      fieldName is added when the schema lacks it, station_dict is built, the update cursor writes
      MIG_STATIONGUID and the hard-coded statusField of every row, and an added field is deleted again. */
  method ClassifyAgainstStations(fc: FeatureClass, stations: seq<Row>, fieldName: string, fieldType: string,
                                 fieldLength: int, statusField: string, first: Relation, second: Relation,
                                 secondLabel: string)
    requires fc.Valid() && fc.HasField(StationGuidField)
    requires fc.HasField(statusField) || fieldName == statusField
    modifies fc
    ensures fc.Valid() && fc.schema == old(fc.schema)
    ensures |fc.rows| == |old(fc.rows)|
    ensures forall k :: 0 <= k < |fc.rows| ==>
              fc.rows[k] == ClassifiedRow(old(fc.rows)[k], !old(fc.HasField(fieldName)), fieldName,
                                          Items(StationDict(stations)), statusField, first, second, secondLabel)
  {
    ghost var original := fc.rows;
    ghost var schema0 := fc.schema;
    var added := Field(fieldName, fieldType, Some(IntToString(fieldLength)));
    var fieldAdded := false;
    if !fc.HasField(fieldName) {
      fc.AddField(added);
      fieldAdded := true;
    }
    assert fc.HasField(StationGuidField) by {
      if fieldAdded { FieldNamesAppend(schema0, added); }
    }
    ghost var widened := fc.rows;
    var stationDict := BuildStationDict(stations);
    WriteClassifications(fc, Items(stationDict), statusField, first, second, secondLabel);
    if fieldAdded {
      WithoutFieldAppend(schema0, added);
      fc.DeleteField(fieldName);
    }
  }

  /** The search cursor that fills station_dict. */
  method BuildStationDict(stations: seq<Row>) returns (d: Dict<Value, Value>)
    ensures d == StationDict(stations)
  {
    ghost var pairs := seq(|stations|, i requires 0 <= i < |stations| => (Get(stations[i], GlobalIdField), Get(stations[i], ShapeToken)));
    d := Dict([], map[]);
    var i := 0;
    while i < |stations|
      invariant 0 <= i <= |stations|
      invariant d == DictFromPairs(pairs[..i])
    {
      assert pairs[..i + 1][..i] == pairs[..i];
      d := Put(d, Get(stations[i], GlobalIdField), Get(stations[i], ShapeToken));
      i := i + 1;
    }
    assert pairs[..i] == pairs;
  }

  /** update_line_fc_within_station_boundary: 'Inside' for the first station the line is within,
      'Partly Inside' for the first it is not disjoint from, otherwise 'Outside'; the cursor always writes LINE_STATUS. */
  method UpdateLineFcWithinStationBoundary(lineFc: FeatureClass, stations: seq<Row>, fieldName: string,
                                           fieldType: string, fieldLength: int, within: Relation, disjoint: Relation)
    requires lineFc.Valid() && lineFc.HasField(StationGuidField)
    requires lineFc.HasField(LineStatusField) || fieldName == LineStatusField
    modifies lineFc
    ensures lineFc.Valid() && lineFc.schema == old(lineFc.schema)
    ensures |lineFc.rows| == |old(lineFc.rows)|
    ensures forall k :: 0 <= k < |lineFc.rows| ==>
              lineFc.rows[k] == ClassifiedRow(old(lineFc.rows)[k], !old(lineFc.HasField(fieldName)), fieldName,
                                              Items(StationDict(stations)), LineStatusField, within,
                                              (a, b) => !disjoint(a, b), "Partly Inside")
  {
    ClassifyAgainstStations(lineFc, stations, fieldName, fieldType, fieldLength, LineStatusField, within,
                            (a, b) => !disjoint(a, b), "Partly Inside");
  }

  /** update_point_fc_within_station_boundary: 'Inside' for the first station the point is within,
      'On Boundary' for the first it touches, otherwise 'Outside'; the cursor always writes POINT_STATUS. */
  method UpdatePointFcWithinStationBoundary(pointFc: FeatureClass, stations: seq<Row>, fieldName: string,
                                            fieldType: string, fieldLength: int, within: Relation, touches: Relation)
    requires pointFc.Valid() && pointFc.HasField(StationGuidField)
    requires pointFc.HasField(PointStatusField) || fieldName == PointStatusField
    modifies pointFc
    ensures pointFc.Valid() && pointFc.schema == old(pointFc.schema)
    ensures |pointFc.rows| == |old(pointFc.rows)|
    ensures forall k :: 0 <= k < |pointFc.rows| ==>
              pointFc.rows[k] == ClassifiedRow(old(pointFc.rows)[k], !old(pointFc.HasField(fieldName)), fieldName,
                                               Items(StationDict(stations)), PointStatusField, within, touches, "On Boundary")
  {
    ClassifyAgainstStations(pointFc, stations, fieldName, fieldType, fieldLength, PointStatusField, within,
                            touches, "On Boundary");
  }

  // ---------------------------------------------------------------- check_relationship

  const CircuitBreakerGuidField: string := "CIRCUITBREAKER_GUID"
  const OperatingVoltageField: string := "OPERATINGVOLTAGE"
  const SubsourceField: string := "SUBSOURCE"
  const IsSourceField: string := "MIG_ISSOURCE"

  predicate HasRelationship(sources: seq<Row>, globalId: Value)
  {
    exists i :: 0 <= i < |sources| && Get(sources[i], CircuitBreakerGuidField) == globalId
  }

  /** check_relationship: a linear search of the circuit sources for a CIRCUITBREAKER_GUID equal to the id. */
  method CheckRelationship(sources: seq<Row>, globalId: Value) returns (found: bool)
    ensures found <==> HasRelationship(sources, globalId)
  {
    var i := 0;
    while i < |sources|
      invariant 0 <= i <= |sources|
      invariant forall k :: 0 <= k < i ==> Get(sources[k], CircuitBreakerGuidField) != globalId
    {
      if Get(sources[i], CircuitBreakerGuidField) == globalId {
        return true;
      }
      i := i + 1;
    }
    return false;
  }
}
