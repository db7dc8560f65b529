/** Copy_Fields_from_CSV_Toolbox.py: reads rows (Class, Field Name, Data Type, Field Length) and adds
    the named fields to the feature classes of a workspace, class by class, never overwriting a field
    a class already has. */
module CopyFieldsFromCsv {
  import opened Strings
  import opened Tables
  import CopyFieldsToolbox

  /** One row of the CSV file, by its four columns. */
  datatype CsvRow = CsvRow(className: string, fieldName: string, dataType: string, fieldLength: string)

  /** The exceptions that end the tool: the ExecuteError on equal paths, the OSError for a missing class. */
  datatype CsvError = SamePaths | MissingClass(name: string)

  /** An arcpy.AddWarning call about the duplicates of one class; its text is DuplicateWarning(featureClass, duplicates). */
  datatype Warning = Warning(featureClass: string, duplicates: seq<string>)

  /** The state of a run: the schema of each feature class, the warnings issued, and the error that stopped it. */
  datatype RunState = RunState(schemas: map<string, seq<Field>>, warnings: seq<Warning>, error: Option<CsvError>)

  function ClassNames(rows: seq<CsvRow>): (names: seq<string>)
    ensures |names| == |rows|
    ensures forall i :: 0 <= i < |rows| ==> names[i] == rows[i].className
  {
    seq(|rows|, i requires 0 <= i < |rows| => rows[i].className)
  }

  /** The rows of one class, in file order. */
  function RowsOfClass(rows: seq<CsvRow>, c: string): seq<CsvRow>
    decreases |rows|
  {
    if |rows| == 0 then []
    else
      var n := |rows| - 1;
      RowsOfClass(rows[..n], c) + if rows[n].className == c then [rows[n]] else []
  }

  /** fields_to_add: a list per class, created when the class first appears and appended to after. */
  function GroupByClass(rows: seq<CsvRow>): Dict<string, seq<CsvRow>>
    decreases |rows|
  {
    if |rows| == 0 then Dict([], map[])
    else
      var n := |rows| - 1;
      var d := GroupByClass(rows[..n]);
      var c := rows[n].className;
      if c in d.values then Dict(d.keys, d.values[c := d.values[c] + [rows[n]]])
      else Dict(d.keys + [c], d.values[c := [rows[n]]])
  }

  /** The classes are the keys in order of first appearance, each holding exactly its own rows in file order. */
  lemma {:induction false} GroupByClassSpec(rows: seq<CsvRow>)
    ensures DictValid(GroupByClass(rows))
    ensures GroupByClass(rows).keys == FirstAppearance(ClassNames(rows))
    ensures forall c :: c in GroupByClass(rows).values ==> GroupByClass(rows).values[c] == RowsOfClass(rows, c)
    decreases |rows|
  {
    if |rows| > 0 {
      var n := |rows| - 1;
      GroupByClassSpec(rows[..n]);
      assert ClassNames(rows)[..n] == ClassNames(rows[..n]);
      var d := GroupByClass(rows[..n]);
      var d' := GroupByClass(rows);
      if rows[n].className !in d.values {
        forall i, j | 0 <= i < j < |d'.keys| ensures d'.keys[i] != d'.keys[j] {
          assert d'.keys[i] == d.keys[i];
          if j < |d.keys| {
            assert d'.keys[j] == d.keys[j];
          }
        }
        assert d.keys == FirstAppearance(ClassNames(rows[..n]));
        forall c | c in d'.values ensures d'.values[c] == RowsOfClass(rows, c) {
          if c != rows[n].className {
            assert c in d.values;
          } else {
            FirstAppearanceSpec(ClassNames(rows[..n]));
            assert c !in ClassNames(rows[..n]);
            RowsOfClassAbsent(rows[..n], c);
          }
        }
      }
    }
  }

  lemma {:induction false} RowsOfClassAbsent(rows: seq<CsvRow>, c: string)
    requires c !in ClassNames(rows)
    ensures RowsOfClass(rows, c) == []
    decreases |rows|
  {
    if |rows| > 0 {
      var n := |rows| - 1;
      assert ClassNames(rows[..n]) == ClassNames(rows)[..n];
      RowsOfClassAbsent(rows[..n], c);
    }
  }

  /** The loop over csv.DictReader that fills fields_to_add. */
  method GroupRows(rows: seq<CsvRow>) returns (groups: Dict<string, seq<CsvRow>>)
    ensures groups == GroupByClass(rows)
  {
    groups := Dict([], map[]);
    var i := 0;
    while i < |rows|
      invariant 0 <= i <= |rows|
      invariant groups == GroupByClass(rows[..i])
    {
      assert rows[..i + 1][..i] == rows[..i];
      var c := rows[i].className;
      if c in groups.values {
        groups := Dict(groups.keys, groups.values[c := groups.values[c] + [rows[i]]]);
      } else {
        groups := Dict(groups.keys + [c], groups.values[c := [rows[i]]]);
      }
      i := i + 1;
    }
    assert rows[..i] == rows;
  }

  /** The AddField call for one row: the length is passed for a TEXT field (any letter case), not otherwise. */
  function FieldFor(info: CsvRow): Field
  {
    Field(info.fieldName, info.dataType, if Upper(info.dataType) == "TEXT" then Some(info.fieldLength) else None)
  }

  /** A type written "Text" in the file keeps its length. */
  lemma TextKeepsLength(className: string, fieldName: string, fieldLength: string)
    ensures FieldFor(CsvRow(className, fieldName, "Text", fieldLength)).length == Some(fieldLength)
  {
    assert Upper("Text") == "TEXT" by {
      assert UpperChar('e') == 'E' && UpperChar('x') == 'X' && UpperChar('t') == 'T';
    }
  }

  /** The loop of add_fields_to_feature_class: each row's field is checked against the class's fields as they
      are at that moment, so a name the file repeats for one class is added once and reported after that.
      The result is the duplicate names and the added fields, both in file order. */
  function AddPlan(schema: seq<Field>, infos: seq<CsvRow>): (plan: (seq<string>, seq<Field>))
    decreases |infos|
  {
    if |infos| == 0 then ([], [])
    else
      var n := |infos| - 1;
      var p := AddPlan(schema, infos[..n]);
      if infos[n].fieldName in FieldNames(schema + p.1) then (p.0 + [infos[n].fieldName], p.1)
      else (p.0, p.1 + [FieldFor(infos[n])])
  }

  function FieldNamesOf(infos: seq<CsvRow>): (names: seq<string>)
    ensures |names| == |infos|
    ensures forall i :: 0 <= i < |infos| ==> names[i] == infos[i].fieldName
  {
    seq(|infos|, i requires 0 <= i < |infos| => infos[i].fieldName)
  }

  /** After the loop the class has every field the file names for it, and no other new field. */
  lemma {:induction false} AddPlanNames(schema: seq<Field>, infos: seq<CsvRow>, n: string)
    ensures n in FieldNames(schema + AddPlan(schema, infos).1) <==> n in FieldNames(schema) || n in FieldNamesOf(infos)
    decreases |infos|
  {
    if |infos| > 0 {
      var k := |infos| - 1;
      AddPlanNames(schema, infos[..k], n);
      var p := AddPlan(schema, infos[..k]);
      assert FieldNamesOf(infos) == FieldNamesOf(infos[..k]) + [infos[k].fieldName];
      var f := FieldFor(infos[k]);
      if f.name !in FieldNames(schema + p.1) {
        assert AddPlan(schema, infos).1 == p.1 + [f];
        assert schema + (p.1 + [f]) == (schema + p.1) + [f];
        FieldNamesAppend(schema + p.1, f);
      } else {
        assert AddPlan(schema, infos).1 == p.1;
      }
    } else {
      assert schema + [] == schema;
    }
  }

  /** No field is added twice or over an existing one: the names of the extended schema stay distinct. */
  lemma {:induction false} AddPlanKeepsNamesDistinct(schema: seq<Field>, infos: seq<CsvRow>)
    requires Distinct(NameList(schema))
    ensures Distinct(NameList(schema + AddPlan(schema, infos).1))
    decreases |infos|
  {
    if |infos| > 0 {
      var k := |infos| - 1;
      AddPlanKeepsNamesDistinct(schema, infos[..k]);
      var p := AddPlan(schema, infos[..k]);
      var f := FieldFor(infos[k]);
      if f.name !in FieldNames(schema + p.1) {
        var s := schema + p.1;
        FieldNamesMember(s, f.name);
        assert schema + (p.1 + [f]) == s + [f];
        assert NameList(s + [f]) == NameList(s) + [f.name];
      }
    }
  }

  /** Every row of the class is either added or reported. */
  lemma {:induction false} AddPlanCount(schema: seq<Field>, infos: seq<CsvRow>)
    ensures |AddPlan(schema, infos).0| + |AddPlan(schema, infos).1| == |infos|
    decreases |infos|
  {
    if |infos| > 0 {
      AddPlanCount(schema, infos[..|infos| - 1]);
    }
  }

  /** The fixed end of the warning, with "have" as the tool writes it. */
  const NotOverwritten: string := " have not been overwritten."

  /** The warning of add_fields_to_feature_class, which names the feature class. */
  function DuplicateWarning(featureClass: string, duplicates: seq<string>): string
  {
    CopyFieldsToolbox.WarningText(|duplicates|, Join(duplicates, ", "), featureClass, NotOverwritten)
  }

  /** One duplicate: singular wording, with "have" kept as the tool writes it. */
  lemma WarningSingular(featureClass: string, name: string)
    ensures DuplicateWarning(featureClass, [name]) ==
            "Warning: The field " + name + " already exists in " + featureClass + (". Field" + NotOverwritten)
  {
    assert Join([name], ", ") == name;
    CopyFieldsToolbox.WarningTextSingular(name, featureClass, NotOverwritten);
  }

  /** Several duplicates: plural wording, the names joined by ", ". */
  lemma WarningPlural(featureClass: string, duplicates: seq<string>)
    requires |duplicates| > 1
    ensures DuplicateWarning(featureClass, duplicates) ==
            "Warning: The fields " + Join(duplicates, ", ") + " already exist in " + featureClass + (". Fields" + NotOverwritten)
  {
    CopyFieldsToolbox.WarningTextPlural(|duplicates|, Join(duplicates, ", "), featureClass, NotOverwritten);
  }

  /** One call of add_fields_to_feature_class. */
  function ClassStep(schemas: map<string, seq<Field>>, featureClass: string, infos: seq<CsvRow>): RunState
  {
    if featureClass !in schemas then RunState(schemas, [], Some(MissingClass(featureClass)))
    else
      var plan := AddPlan(schemas[featureClass], infos);
      RunState(schemas[featureClass := schemas[featureClass] + plan.1],
               if |plan.0| == 0 then [] else [Warning(featureClass, plan.0)], None)
  }

  /** The loop over fields_to_add.items(): class by class, until a call raises. */
  function RunClasses(schemas: map<string, seq<Field>>, keys: seq<string>, groups: map<string, seq<CsvRow>>): (r: RunState)
    requires forall i :: 0 <= i < |keys| ==> keys[i] in groups
    decreases |keys|
  {
    if |keys| == 0 then RunState(schemas, [], None)
    else
      var n := |keys| - 1;
      var r := RunClasses(schemas, keys[..n], groups);
      if r.error.Some? then r
      else
        var s := ClassStep(r.schemas, keys[n], groups[keys[n]]);
        RunState(s.schemas, r.warnings + s.warnings, s.error)
  }

  /** Tool.execute: the path check, the grouping, then the classes in the order they first appear in the file. */
  function Run(csvPath: string, targetDb: string, rows: seq<CsvRow>, schemas: map<string, seq<Field>>): RunState
  {
    if csvPath == targetDb then RunState(schemas, [], Some(SamePaths))
    else
      var groups := GroupByClass(rows);
      GroupByClassSpec(rows);
      RunClasses(schemas, groups.keys, groups.values)
  }

  /** No run creates or removes a feature class. */
  lemma {:induction false} RunClassesKeepsClasses(schemas: map<string, seq<Field>>, keys: seq<string>, groups: map<string, seq<CsvRow>>)
    requires forall i :: 0 <= i < |keys| ==> keys[i] in groups
    ensures RunClasses(schemas, keys, groups).schemas.Keys == schemas.Keys
    decreases |keys|
  {
    if |keys| > 0 {
      RunClassesKeepsClasses(schemas, keys[..|keys| - 1], groups);
    }
  }

  /** A run raises exactly when some class of the file is missing from the workspace. */
  lemma {:induction false} RunClassesCompletes(schemas: map<string, seq<Field>>, keys: seq<string>, groups: map<string, seq<CsvRow>>)
    requires forall i :: 0 <= i < |keys| ==> keys[i] in groups
    ensures RunClasses(schemas, keys, groups).error.None? <==> forall i :: 0 <= i < |keys| ==> keys[i] in schemas
    decreases |keys|
  {
    if |keys| > 0 {
      var n := |keys| - 1;
      var pre := keys[..n];
      RunClassesCompletes(schemas, pre, groups);
      RunClassesKeepsClasses(schemas, pre, groups);
      var r := RunClasses(schemas, pre, groups);
      if r.error.None? && keys[n] in schemas {
        forall i | 0 <= i < |keys| ensures keys[i] in schemas {
          if i < n {
            assert keys[i] == pre[i];
          }
        }
      } else if r.error.Some? {
        var i :| 0 <= i < n && pre[i] !in schemas;
        assert keys[i] == pre[i];
      }
    }
  }

  /** The error names the first missing class: the classes before it were processed, the rest were not. */
  lemma {:induction false} RunClassesFirstMissing(schemas: map<string, seq<Field>>, keys: seq<string>, groups: map<string, seq<CsvRow>>, j: nat)
    requires forall i :: 0 <= i < |keys| ==> keys[i] in groups
    requires j < |keys| && keys[j] !in schemas
    requires forall i :: 0 <= i < j ==> keys[i] in schemas
    ensures RunClasses(schemas, keys, groups) ==
            var r := RunClasses(schemas, keys[..j], groups);
            RunState(r.schemas, r.warnings, Some(MissingClass(keys[j])))
    decreases |keys|
  {
    var n := |keys| - 1;
    assert keys[..n][..j] == keys[..j];
    if j < n {
      RunClassesFirstMissing(schemas, keys[..n], groups, j);
    } else {
      assert keys[..n] == keys[..j];
      RunClassesCompletes(schemas, keys[..j], groups);
      RunClassesKeepsClasses(schemas, keys[..j], groups);
    }
  }

  /** When a run completes, each class of the file has gained the fields planned for its own rows, and
      every other class is unchanged. */
  lemma {:induction false} RunClassesAddsFields(schemas: map<string, seq<Field>>, keys: seq<string>, groups: map<string, seq<CsvRow>>, c: string)
    requires forall i :: 0 <= i < |keys| ==> keys[i] in groups
    requires Distinct(keys)
    requires RunClasses(schemas, keys, groups).error.None?
    requires c in schemas
    ensures c in RunClasses(schemas, keys, groups).schemas
    ensures c in keys ==> RunClasses(schemas, keys, groups).schemas[c] == schemas[c] + AddPlan(schemas[c], groups[c]).1
    ensures c !in keys ==> RunClasses(schemas, keys, groups).schemas[c] == schemas[c]
    decreases |keys|
  {
    if |keys| > 0 {
      var n := |keys| - 1;
      assert RunClasses(schemas, keys[..n], groups).error.None?;
      RunClassesAddsFields(schemas, keys[..n], groups, c);
      RunClassesKeepsClasses(schemas, keys[..n], groups);
      if c == keys[n] {
        assert c !in keys[..n] by {
          forall i | 0 <= i < n ensures keys[..n][i] != c {
            assert keys[i] != keys[n];
          }
        }
      } else {
        assert c in keys <==> c in keys[..n] by {
          assert keys == keys[..n] + [keys[n]];
        }
      }
    }
  }

  /** A run that raises nothing leaves each class of the workspace with the fields planned for the
      file's rows of that class appended, and a class the file does not name as it was. */
  lemma RunAddsFields(csvPath: string, targetDb: string, rows: seq<CsvRow>, schemas: map<string, seq<Field>>, c: string)
    requires Run(csvPath, targetDb, rows, schemas).error.None?
    requires c in schemas
    ensures c in Run(csvPath, targetDb, rows, schemas).schemas
    ensures c in ClassNames(rows) ==>
              Run(csvPath, targetDb, rows, schemas).schemas[c] == schemas[c] + AddPlan(schemas[c], RowsOfClass(rows, c)).1
    ensures c !in ClassNames(rows) ==> Run(csvPath, targetDb, rows, schemas).schemas[c] == schemas[c]
  {
    var groups := GroupByClass(rows);
    GroupByClassSpec(rows);
    FirstAppearanceSpec(ClassNames(rows));
    RunClassesAddsFields(schemas, groups.keys, groups.values, c);
  }

  /** The workspace the tool works in (arcpy.env.workspace): the schema of each feature class by name. */
  class Workspace {
    var schemas: map<string, seq<Field>>

    constructor (schemas: map<string, seq<Field>>)
      ensures this.schemas == schemas
    {
      this.schemas := schemas;
    }

    /** add_fields_to_feature_class: OSError when the class is missing, otherwise the loop that adds each
        field the class does not have yet and the warning for the others. */
    method AddFieldsToFeatureClass(featureClass: string, infos: seq<CsvRow>) returns (warnings: seq<Warning>, error: Option<CsvError>)
      modifies this
      ensures ClassStep(old(schemas), featureClass, infos) == RunState(schemas, warnings, error)
    {
      if featureClass !in schemas {
        return [], Some(MissingClass(featureClass));
      }
      ghost var schema0 := schemas[featureClass];
      ghost var schemas0 := schemas;
      var duplicates: seq<string> := [];
      ghost var added: seq<Field> := [];
      assert schema0 + added == schema0;
      var i := 0;
      while i < |infos|
        invariant 0 <= i <= |infos|
        invariant (duplicates, added) == AddPlan(schema0, infos[..i])
        invariant schemas == schemas0[featureClass := schema0 + added]
      {
        assert infos[..i + 1][..i] == infos[..i];
        var info := infos[i];
        if info.fieldName in FieldNames(schemas[featureClass]) {
          duplicates := duplicates + [info.fieldName];
        } else {
          var field := if Upper(info.dataType) == "TEXT" then Field(info.fieldName, info.dataType, Some(info.fieldLength))
                       else Field(info.fieldName, info.dataType, None);
          schemas := schemas[featureClass := schemas[featureClass] + [field]];
          assert schema0 + added + [field] == schema0 + (added + [field]);
          added := added + [field];
        }
        i := i + 1;
      }
      assert infos[..i] == infos;
      warnings := if |duplicates| == 0 then [] else [Warning(featureClass, duplicates)];
      error := None;
    }

    /** The loop over fields_to_add.items(): an exception from one class ends the run. */
    method RunGroups(keys: seq<string>, groups: map<string, seq<CsvRow>>) returns (warnings: seq<Warning>, error: Option<CsvError>)
      requires forall i :: 0 <= i < |keys| ==> keys[i] in groups
      modifies this
      ensures RunClasses(old(schemas), keys, groups) == RunState(schemas, warnings, error)
    {
      ghost var schemas0 := schemas;
      warnings := [];
      error := None;
      var i := 0;
      while i < |keys|
        invariant 0 <= i <= |keys|
        invariant RunClasses(schemas0, keys[..i], groups) == RunState(schemas, warnings, None)
      {
        assert keys[..i + 1][..i] == keys[..i];
        var featureClass := keys[i];
        var classWarnings, classError := AddFieldsToFeatureClass(featureClass, groups[featureClass]);
        warnings := warnings + classWarnings;
        if classError.Some? {
          RunClassesCompletes(schemas0, keys[..i], groups);
          RunClassesKeepsClasses(schemas0, keys[..i], groups);
          forall j | 0 <= j < i ensures keys[j] in schemas0 {
            assert keys[..i][j] == keys[j];
          }
          RunClassesFirstMissing(schemas0, keys, groups, i);
          error := classError;
          return;
        }
        i := i + 1;
      }
      assert keys[..i] == keys;
    }

    /** Tool.execute of Copy_Fields_from_CSV_Toolbox.py. The CSV file's rows are given as a parameter. */
    method Execute(csvPath: string, targetDb: string, rows: seq<CsvRow>) returns (warnings: seq<Warning>, error: Option<CsvError>)
      modifies this
      ensures Run(csvPath, targetDb, rows, old(schemas)) == RunState(schemas, warnings, error)
    {
      if csvPath == targetDb {
        return [], Some(SamePaths);
      }
      var groups := GroupRows(rows);
      GroupByClassSpec(rows);
      warnings, error := RunGroups(groups.keys, groups.values);
    }
  }
}
