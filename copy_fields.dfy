/** Copy_Fields_Toolbox.py: copies the field definitions of a template feature class into a target
    feature class of the same name, skipping OBJECTID and Shape and reporting fields the target
    already has. */
module CopyFieldsToolbox {
  import opened Strings
  import opened Tables

  /** The two arcpy.ExecuteError raised before anything is changed. */
  datatype CopyError = SamePaths | LastComponentsDiffer

  /** "field"/"fields" and "exists"/"exist", by the number of duplicates. */
  function FieldWord(count: nat): string { if count == 1 then "field" else "fields" }

  function ExistWord(count: nat): string { if count == 1 then "exists" else "exist" }

  /** The checks on the two paths, in the order the tool makes them. */
  function PathError(templatePath: string, targetPath: string): Option<CopyError>
  {
    if templatePath == targetPath then Some(SamePaths)
    else if LastOf(Split(templatePath, '\\')) != LastOf(Split(targetPath, '\\')) then Some(LastComponentsDiffer)
    else None
  }

  /** The text after the last backslash of a path (all of it when there is none). */
  predicate IsLastComponent(last: string, path: string)
  {
    IsSuffix(last, path) && '\\' !in last && (|last| < |path| ==> path[|path| - |last| - 1] == '\\')
  }

  /** Paths that pass the checks differ and end in the same component. */
  lemma PathsAccepted(templatePath: string, targetPath: string)
    requires PathError(templatePath, targetPath).None?
    ensures templatePath != targetPath
    ensures LastOf(Split(templatePath, '\\')) == LastOf(Split(targetPath, '\\'))
    ensures IsLastComponent(LastOf(Split(templatePath, '\\')), templatePath)
    ensures IsLastComponent(LastOf(Split(templatePath, '\\')), targetPath)
  {
    LastComponent(templatePath, '\\');
    LastComponent(targetPath, '\\');
  }

  predicate Excluded(name: string)
  {
    name == "OBJECTID" || name == "Shape"
  }

  /** The loop over the template fields, against the snapshot `existing` of the target's field names:
      the duplicate names and the fields to add, both in template order. */
  function CopyPlan(template: seq<Field>, existing: set<string>): (plan: (seq<string>, seq<Field>))
    decreases |template|
  {
    if |template| == 0 then ([], [])
    else
      var p := CopyPlan(template[..|template| - 1], existing);
      var f := template[|template| - 1];
      if Excluded(f.name) then p
      else if f.name in existing then (p.0 + [f.name], p.1)
      else (p.0, p.1 + [f])
  }

  function ExcludedCount(template: seq<Field>): nat
    decreases |template|
  {
    if |template| == 0 then 0
    else ExcludedCount(template[..|template| - 1]) + if Excluded(template[|template| - 1].name) then 1 else 0
  }

  /** A field is added exactly when it is a template field that is neither excluded nor already in the target. */
  lemma {:induction false} CopyPlanAdded(template: seq<Field>, existing: set<string>, f: Field)
    ensures f in CopyPlan(template, existing).1 <==> f in template && !Excluded(f.name) && f.name !in existing
    decreases |template|
  {
    if |template| > 0 {
      var n := |template| - 1;
      CopyPlanAdded(template[..n], existing, f);
      assert template == template[..n] + [template[n]];
    }
  }

  /** A name is reported exactly when a template field of that name is not excluded and already in the target. */
  lemma {:induction false} CopyPlanDuplicate(template: seq<Field>, existing: set<string>, name: string)
    ensures name in CopyPlan(template, existing).0 <==> name in NameList(template) && !Excluded(name) && name in existing
    decreases |template|
  {
    if |template| > 0 {
      var n := |template| - 1;
      CopyPlanDuplicate(template[..n], existing, name);
      assert NameList(template) == NameList(template[..n]) + [template[n].name];
    }
  }

  /** Every template field lands in exactly one of three places: excluded, reported, or added. */
  lemma {:induction false} CopyPlanCount(template: seq<Field>, existing: set<string>)
    ensures |CopyPlan(template, existing).0| + |CopyPlan(template, existing).1| + ExcludedCount(template) == |template|
    decreases |template|
  {
    if |template| > 0 {
      CopyPlanCount(template[..|template| - 1], existing);
    }
  }

  /** The duplicate warning of both copy tools, for `count` duplicates whose names joined by ", " are
      `names`: where they already exist, then the tool's own closing words. */
  function WarningText(count: nat, names: string, place: string, closing: string): string
  {
    var fieldWord := FieldWord(count);
    "Warning: The " + fieldWord + " " + names + " already " + ExistWord(count) + " in " +
    place + ". " + Capitalize(fieldWord) + closing
  }

  /** The warning this tool issues when there are duplicates. */
  function DuplicateWarning(duplicates: seq<string>): string
  {
    WarningText(|duplicates|, Join(duplicates, ", "), "the target database", " will not be overwritten.")
  }

  /** str.capitalize() of the two field words. */
  lemma CapitalizedWords()
    ensures Capitalize("field") == "Field" && Capitalize("fields") == "Fields"
  {
    CapitalizedField();
    CapitalizedFields();
  }

  lemma CapitalizedField()
    ensures Capitalize("field") == "Field"
  {
    var r := Capitalize("field");
    assert r[0] == UpperChar('f') == 'F';
    assert r[1] == 'i' && r[2] == 'e' && r[3] == 'l' && r[4] == 'd';
  }

  lemma CapitalizedFields()
    ensures Capitalize("fields") == "Fields"
  {
    var r := Capitalize("fields");
    assert r[0] == UpperChar('f') == 'F';
    assert r[1] == 'i' && r[2] == 'e' && r[3] == 'l' && r[4] == 'd' && r[5] == 's';
  }

  /** Concatenation regrouped around the names and the place. */
  lemma Regroup(head: string, names: string, verb: string, place: string, close: string)
    ensures head + names + verb + place + close == head + names + (verb + place + close)
  {
  }

  /** One duplicate: the singular wording, wherever the warning places the field. */
  lemma WarningTextSingular(name: string, place: string, closing: string)
    ensures WarningText(1, name, place, closing) ==
            "Warning: The field " + name + " already exists in " + place + (". Field" + closing)
  {
    CapitalizedWords();
    assert "Warning: The " + "field" + " " == "Warning: The field ";
    assert " already " + "exists" + " in " == " already exists in ";
    assert ". " + "Field" + closing == ". Field" + closing;
  }

  /** Several duplicates: the plural wording. */
  lemma WarningTextPlural(count: nat, names: string, place: string, closing: string)
    requires count > 1
    ensures WarningText(count, names, place, closing) ==
            "Warning: The fields " + names + " already exist in " + place + (". Fields" + closing)
  {
    CapitalizedWords();
    assert "Warning: The " + "fields" + " " == "Warning: The fields ";
    assert " already " + "exist" + " in " == " already exist in ";
    assert ". " + "Fields" + closing == ". Fields" + closing;
  }

  // The literal pieces of this tool's two endings, each joined on its own.
  lemma SingularPlace() ensures " already exists in " + "the target database" == " already exists in the target database" {}
  lemma SingularClose() ensures ". Field" + " will not be overwritten." == ". Field will not be overwritten." {}
  lemma SingularEnding()
    ensures " already exists in the target database" + ". Field will not be overwritten." ==
            " already exists in the target database. Field will not be overwritten."
  {}
  lemma PluralPlace() ensures " already exist in " + "the target database" == " already exist in the target database" {}
  lemma PluralClose() ensures ". Fields" + " will not be overwritten." == ". Fields will not be overwritten." {}
  lemma PluralEnding()
    ensures " already exist in the target database" + ". Fields will not be overwritten." ==
            " already exist in the target database. Fields will not be overwritten."
  {}

  /** One duplicate: singular wording. */
  lemma WarningSingular(name: string)
    ensures DuplicateWarning([name]) ==
            "Warning: The field " + name + " already exists in the target database. Field will not be overwritten."
  {
    assert Join([name], ", ") == name;
    WarningTextSingular(name, "the target database", " will not be overwritten.");
    SingularClose();
    Regroup("Warning: The field ", name, " already exists in ", "the target database", ". Field will not be overwritten.");
    SingularPlace();
    SingularEnding();
  }

  /** Several duplicates: plural wording, the names joined by ", ". */
  lemma WarningPlural(duplicates: seq<string>)
    requires |duplicates| > 1
    ensures DuplicateWarning(duplicates) ==
            "Warning: The fields " + Join(duplicates, ", ") + " already exist in the target database. Fields will not be overwritten."
  {
    var names := Join(duplicates, ", ");
    WarningTextPlural(|duplicates|, names, "the target database", " will not be overwritten.");
    PluralClose();
    Regroup("Warning: The fields ", names, " already exist in ", "the target database", ". Fields will not be overwritten.");
    PluralPlace();
    PluralEnding();
  }

  /** Every added name is a template name the snapshot lacks. */
  lemma {:induction false} CopyPlanAddedNames(template: seq<Field>, existing: set<string>, n: string)
    ensures n in FieldNames(CopyPlan(template, existing).1) ==> n in NameList(template) && n !in existing
    decreases |template|
  {
    if |template| > 0 {
      var k := |template| - 1;
      CopyPlanAddedNames(template[..k], existing, n);
      assert NameList(template) == NameList(template[..k]) + [template[k].name];
      var p := CopyPlan(template[..k], existing);
      if !Excluded(template[k].name) && template[k].name !in existing {
        FieldNamesAppend(p.1, template[k]);
      }
    }
  }

  /** Each row after the added fields, in order, each read as None. */
  function WithNulls(row: Row, fields: seq<Field>): Row
    decreases |fields|
  {
    if |fields| == 0 then row else WithNulls(row, fields[..|fields| - 1])[fields[|fields| - 1].name := Null]
  }

  /** An added field reads None in every row; every other field keeps its value. */
  lemma {:induction false} WithNullsEffect(row: Row, fields: seq<Field>, n: string)
    ensures n in FieldNames(fields) ==> n in WithNulls(row, fields) && WithNulls(row, fields)[n] == Null
    ensures n !in FieldNames(fields) ==> Get(WithNulls(row, fields), n) == Get(row, n) &&
                                         (n in WithNulls(row, fields) <==> n in row)
    decreases |fields|
  {
    if |fields| > 0 {
      WithNullsEffect(row, fields[..|fields| - 1], n);
    }
  }

  /** The loop over the template fields against the snapshot of the target's field names taken
      before it: each non-excluded field is reported when the snapshot has its name, and added
      with its name, type and length otherwise. */
  method AddTemplateFields(template: seq<Field>, target: FeatureClass) returns (duplicates: seq<string>)
    requires target.Valid()
    requires Distinct(NameList(template))
    modifies target
    ensures var plan := CopyPlan(template, FieldNames(old(target.schema)));
            duplicates == plan.0 &&
            target.Valid() && target.schema == old(target.schema) + plan.1 &&
            |target.rows| == |old(target.rows)| &&
            forall k :: 0 <= k < |target.rows| ==> target.rows[k] == WithNulls(old(target.rows)[k], plan.1)
  {
    var existingFields := FieldNames(target.schema);
    ghost var schema0 := target.schema;
    ghost var rows0 := target.rows;
    duplicates := [];
    ghost var added: seq<Field> := [];
    var i := 0;
    while i < |template|
      invariant 0 <= i <= |template|
      invariant (duplicates, added) == CopyPlan(template[..i], existingFields)
      invariant target.Valid() && target.schema == schema0 + added
      invariant |target.rows| == |rows0|
      invariant forall k :: 0 <= k < |target.rows| ==> target.rows[k] == WithNulls(rows0[k], added)
    {
      assert template[..i + 1][..i] == template[..i];
      var field := template[i];
      if !Excluded(field.name) {
        if field.name in existingFields {
          duplicates := duplicates + [field.name];
        } else {
          assert !target.HasField(field.name) by {
            FieldNamesConcat(schema0, added);
            CopyPlanAddedNames(template[..i], existingFields, field.name);
            forall j | 0 <= j < i ensures NameList(template[..i])[j] != field.name {
              assert NameList(template)[j] != NameList(template)[i];
            }
          }
          target.AddField(field);
          assert (added + [field])[..|added|] == added;
          added := added + [field];
        }
      }
      i := i + 1;
    }
    assert template[..i] == template;
  }

  /** Tool.execute of Copy_Fields_Toolbox.py: the path checks, then the loop over the template fields.
      The result is the warning, if any. */
  method Execute(templatePath: string, targetPath: string, template: seq<Field>, target: FeatureClass)
    returns (outcome: Result<Option<string>, CopyError>)
    requires target.Valid()
    requires Distinct(NameList(template))
    modifies target
    ensures PathError(templatePath, targetPath).Some? ==>
              outcome == Err(PathError(templatePath, targetPath).value) &&
              target.schema == old(target.schema) && target.rows == old(target.rows)
    ensures PathError(templatePath, targetPath).None? ==>
              var plan := CopyPlan(template, FieldNames(old(target.schema)));
              outcome == Ok(if |plan.0| == 0 then None else Some(DuplicateWarning(plan.0))) &&
              target.Valid() && target.schema == old(target.schema) + plan.1 &&
              |target.rows| == |old(target.rows)| &&
              forall k :: 0 <= k < |target.rows| ==> target.rows[k] == WithNulls(old(target.rows)[k], plan.1)
  {
    if templatePath == targetPath {
      return Err(SamePaths);
    }
    var templateParts := Split(templatePath, '\\');
    var targetParts := Split(targetPath, '\\');
    if templateParts[|templateParts| - 1] != targetParts[|targetParts| - 1] {
      return Err(LastComponentsDiffer);
    }
    var duplicateFields := AddTemplateFields(template, target);
    if |duplicateFields| > 0 {
      outcome := Ok(Some(DuplicateWarning(duplicateFields)));
    } else {
      outcome := Ok(None);
    }
  }
}
