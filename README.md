# GIS field-propagation and data-preparation scripts, modelled in Dafny

This project models the table logic of a set of ArcGIS Pro / pandas scripts for an electricity-network
GIS migration. The vendor calls are abstracted so that only the scripts' own table logic is left:

- **Field propagation** (`Update_Fields_Toolbox.py` and `import_py_file_mainlogic_for_toolbox.py`):
  - a key-based join from a source table;
  - copying a field into other fields of the same row;
  - spatial tagging, where the first or the last match wins;
  - classifying lines and points against station polygons as Inside, Partly Inside, On Boundary or Outside;
  - the `MIG_ISSOURCE` rule for circuit breakers.

  The two files are modelled as two variants. Their voltage priority and their is-source rule differ.
- **Schema copying**:
  - `Copy_Fields_Toolbox.py` copies template fields into a target feature class of the same name.
  - `Copy_Fields_from_CSV_Toolbox.py` adds the fields listed in a CSV, grouped by feature class.
- **Spreadsheet preparation** (`coping_replacing_values_in_Excel.py`): code-to-label substitution per
  column, and header extraction and extension.
- **Association records** (`many_to_many.py`, `one_to_many.py`, `one_to_one.py`):
  transformer→unit containment records.
- **Camping revenue** (`camping.py`): the daily price and the season loop.

How things are represented:

- A feature class is a `Tables.FeatureClass` object holding a schema (`seq<Field>`) and rows. A row is a
  `map<string, Value>`, and cursor order is sequence order. Tables that are only read are `seq<Row>` values.
- Geometry sits in the `"SHAPE@"` cell. The spatial tests (`within`, `touches`, `disjoint`, the
  intersection selection) are uninterpreted relations passed as parameters.
- A Python dict whose insertion order matters is a `Tables.Dict`: its keys in insertion order, plus a map.
- Everything that is read from outside is a parameter of the model: cursor contents, CSV rows, workbook
  sheets, the keyboard entries of `camping.py`, and the interpreter's table of Unicode decimal digits,
  which `re.match(r'\d+', …)` and `int()` consult.
- A cursor on a layer visits the layer's selection, or every row when the selection is empty.

Modules:

- `Strings`: digits, split, join, capitalisation.
- `Tables`: values, rows, fields, feature classes, ordered dicts.
- `Propagation`: the operators the two field-propagation files share.
- `UpdateFieldsToolbox` and `MainLogic`: the operators in which the two files differ.
- `CopyFieldsToolbox` and `CopyFieldsFromCsv`.
- `ExcelSubstitution`.
- `AssociationRecords`, `ManyToMany`, `OneToMany` and `OneToOne`.
- `Camping`.

## Model

| member | source | states |
|---|---|---|
| Tables.FirstAppearanceSpec | import_py_file_mainlogic_for_toolbox.py:123 | The keys of a dict filled from a sequence are its distinct elements, each once, in order of first appearance. |
| Tables.DictFromPairsKeys | Update_Fields_Toolbox.py:254 | The keys of a dict comprehension are the keys of its pairs, in order of first appearance. |
| Tables.DictFromPairsLastWins | Update_Fields_Toolbox.py:254 | For a repeated key the dict holds the value of the last pair with that key. |
| Tables.WithoutField | Update_Fields_Toolbox.py:277-278 | The schema without the deleted field has exactly the other field names. |
| Tables.FeatureClass.AddField | Copy_Fields_Toolbox.py:104-107 | AddField appends the field to the schema, and every row reads None in it. |
| Tables.FeatureClass.DeleteField | Update_Fields_Toolbox.py:277-278 | DeleteField removes the field from the schema and from every row. Other fields are untouched. |
| Tables.FeatureClass.UpdateRow | Update_Fields_Toolbox.py:115 | `cursor.updateRow(row)` replaces row i by a row with the same fields. The schema and every other row are unchanged. |
| Strings.LeadingDigits | Update_Fields_Toolbox.py:352 | The match of `re.match(r'\d+', s)`: the longest prefix of s made of decimal digits, where a decimal digit is any character the interpreter's digit table gives a value from 0 to 9. |
| Strings.ParseLeadingNumber | Update_Fields_Toolbox.py:352-353 | `int(match.group())`, or 0 without a match. Its meaning is stated by the three lemmas below. |
| Strings.ParseLeadingNumberOfDigits | Update_Fields_Toolbox.py:352-353 | A text that starts with a run of decimal digits, from any script, reads as the value of that run, whatever non-digit text follows. |
| Strings.ParseLeadingNumberOfNatToString | Update_Fields_Toolbox.py:352-353 | With the ASCII digits valued as usual, the decimal numeral of n followed by non-digit text reads back as n. |
| Strings.ParseLeadingNumberFullwidth | Update_Fields_Toolbox.py:352-353 | Non-ASCII digits count: with the Unicode values of the fullwidth digits, "２０ kV" reads as 20. |
| Strings.ParseLeadingNumberNoDigit | Update_Fields_Toolbox.py:352-353 | A voltage text that does not start with a decimal digit reads as 0. |
| Strings.Split | Copy_Fields_Toolbox.py:74-75 | `str.split` on one character is never empty. Its meaning is stated by JoinSplit and SplitPartsFree. |
| Strings.Upper | Copy_Fields_from_CSV_Toolbox.py:96 | `str.upper()` keeps the length and maps each character on its own. |
| Strings.Capitalize | Copy_Fields_Toolbox.py:120 | `str.capitalize()` keeps the length, raises the first character and lowers the others. CapitalizedWords gives "Field" and "Fields". |
| Strings.Contains | Update_Fields_Toolbox.py:158 | `'TEXT' in name`. Its meaning is stated by ContainsIff. |
| Strings.ContainsIff | Update_Fields_Toolbox.py:158 | `sub in s` holds exactly when sub occurs at some position of s. |
| Strings.Join | Copy_Fields_Toolbox.py:117 | `", ".join`. Its meaning is stated by JoinSplit, WarningSingular and WarningPlural. |
| Strings.NatToString | Update_Fields_Toolbox.py:159 | `str()` of a natural number writes at least one ASCII digit, with no leading zero. DecimalsValueOfNatToString reads it back. |
| Strings.DecimalsValueOfNatToString | Update_Fields_Toolbox.py:159 | The digits `str()` writes are decimal digits, and `int()` reads them back as the number. |
| Strings.LastComponent | Copy_Fields_Toolbox.py:74-75 | The last element of `path.split("\\")` is a suffix of the path, contains no separator, and is preceded by one unless it is the whole path. |
| Strings.JoinSplit | Copy_Fields_Toolbox.py:74-75 | Joining the parts of `split("\\")` with the separator gives back the path. |
| Strings.SplitPartsFree | Copy_Fields_Toolbox.py:74-75 | No part of `split("\\")` contains the separator. |
| Propagation.OriginTable | Update_Fields_Toolbox.py:99-104 | origin_fc_dict. Its meaning is stated by OriginTableKeys and OriginTableLastWins. |
| Propagation.OriginTableKeys | Update_Fields_Toolbox.py:99-104 | The lookup table has an entry for a key exactly when some source row carries that key. |
| Propagation.OriginTableLastWins | Update_Fields_Toolbox.py:99-104 | For a repeated key, the table holds the projected values of the last source row with that key. |
| Propagation.BuildOriginTable | import_py_file_mainlogic_for_toolbox.py:37-42 | The search-cursor loop builds exactly that last-row-wins table. |
| Propagation.ApplyPairs | Update_Fields_Toolbox.py:113-114 | The writes of the field pairs into one row. Its meaning is stated by ApplyPairsKeys, ApplyPairsOther and ApplyPairsLast. |
| Propagation.ApplyPairsKeys | Update_Fields_Toolbox.py:111-115 | Writing the field pairs adds the destination fields to a row, and no other field. |
| Propagation.ApplyPairsOther | Update_Fields_Toolbox.py:111-115 | A field that is no pair's destination keeps its value. |
| Propagation.ApplyPairsLast | Update_Fields_Toolbox.py:111-115 | A destination named by several pairs holds the source value of the last such pair. |
| Propagation.CopyRelated | Update_Fields_Toolbox.py:113-114 | The assignment loop over the destination fields leaves the row `ApplyPairs` describes: see the three lemmas above for its keys and values. |
| Propagation.JoinRow | Update_Fields_Toolbox.py:108-115 | One destination row of the join. Its meaning is stated by JoinTakesLastSourceRow and JoinUnmatchedUnchanged. |
| Propagation.JoinTakesLastSourceRow | Update_Fields_Toolbox.py:108-115 | A destination row that passes the where clause and whose key is in the source takes each destination value from the last source row with that key. Its other fields, the key among them, keep their values. |
| Propagation.JoinUnmatchedUnchanged | Update_Fields_Toolbox.py:108-119 | A row that fails the where clause, or whose key no source row carries, is left as it was. |
| Propagation.UnmatchedKeys | Update_Fields_Toolbox.py:116-119 | The keys warned about, one per unmatched row. UpdateFcFromDict returns them. |
| Propagation.UpdateFcFromDict | Update_Fields_Toolbox.py:82-119 | update_fc_from_dict keeps the schema and rewrites every destination row by the join. It returns the unmatched keys, in cursor order, as the warnings. |
| Propagation.WithinRow | Update_Fields_Toolbox.py:121-134 | One inner row under update_fc_within. Its meaning is stated by WithinRowEffect and WithinRowIdempotent. |
| Propagation.WithinRowEffect | import_py_file_mainlogic_for_toolbox.py:65-73 | After the update a row reads 'Station' exactly when it lies within some outer polygon or already read 'Station'. Every other field keeps its value. |
| Propagation.WithinRowIdempotent | Update_Fields_Toolbox.py:121-134 | Running update_fc_within twice gives the same rows as running it once. |
| Propagation.UpdateFcWithin | Update_Fields_Toolbox.py:121-134 | update_fc_within keeps the schema and applies the within-rule to every inner row. |
| Propagation.SelfUpdateRow | Update_Fields_Toolbox.py:143-162 | One row under update_fc_self. Its meaning is stated by SelfUpdateCopies and SelfUpdateRowKeys. |
| Propagation.WriteTargets | Update_Fields_Toolbox.py:151-161 | The writes of one tuple's targets. Its meaning is stated by WriteTargetsEffect. |
| Propagation.Converted | Update_Fields_Toolbox.py:158-161 | `str(source_value)` for a target whose name contains 'TEXT', the value itself otherwise. WriteTargetsEffect applies it. |
| Propagation.WriteTargetsEffect | Update_Fields_Toolbox.py:151-162 | A target gets the source value, str-converted when its name contains 'TEXT'. Non-targets are unchanged. |
| Propagation.SelfUpdateCopies | Update_Fields_Toolbox.py:143-162 | Every target ends up with its tuple's source value, converted as above, whatever it held before: non-empty data is overwritten too. Fields that are no target keep their values. |
| Propagation.SelfUpdateRowKeys | import_py_file_mainlogic_for_toolbox.py:82-101 | The self-update adds exactly the target fields to a row. |
| Propagation.AllFields | Update_Fields_Toolbox.py:143 | The flattened cursor field list. Its meaning is stated by AllFieldsMember. |
| Propagation.AllFieldsMember | Update_Fields_Toolbox.py:143-144 | The flattened cursor field list names every source and every target. |
| Propagation.CopyWithinRow | Update_Fields_Toolbox.py:147-161 | One row of the cursor applies the tuples in order. A populated field is reported at most once over the run, and only if it is a target. |
| Propagation.UpdateFcSelf | Update_Fields_Toolbox.py:136-162 | update_fc_self keeps the schema and rewrites every row by the self-update. The reported fields are distinct targets. |
| Propagation.TagRows | Update_Fields_Toolbox.py:215-224 | One join layer's update cursor keeps the number of rows. Its meaning is stated by TagRowsUpdated and TagRowsRow. |
| Propagation.TagLayers | Update_Fields_Toolbox.py:211-224 | All join layers in dict order keep the number of rows. Its meaning is stated by TagLayersUpdated and TagLayersFirstWins. |
| Propagation.FirstSelectingSpec | Update_Fields_Toolbox.py:211-224 | FirstSelecting names the first join layer, in dict order, whose selection holds the row. A layer's selection is the rows that intersect it, or every row when none does. None means no layer selects the row. |
| Propagation.EmptySelectionTakesAll | Update_Fields_Toolbox.py:217-219 | A layer that no target row intersects selects every row, so every row is assigned by that layer or an earlier one. |
| Propagation.TagLayersSelectsAlike | Update_Fields_Toolbox.py:211-224 | Tagging writes only the value field, never the shape, so whether any row intersects a given layer is the same after tagging as before. |
| Propagation.TagRowsUpdated | Update_Fields_Toolbox.py:212-224 | One layer's pass adds to updated_features exactly the ids of the rows that layer selects. |
| Propagation.TagRowsRow | Update_Fields_Toolbox.py:212-224 | One pass gives the layer's value to exactly the selected rows whose id is not yet in updated_features. |
| Propagation.TagLayersUpdated | import_py_file_mainlogic_for_toolbox.py:148-164 | After all layers, updated_features holds an id exactly when some layer selects a row with that id. |
| Propagation.TagLayersFirstWins | Update_Fields_Toolbox.py:211-232 | A row takes the value of the first layer, in dict order, that selects it, and later layers never overwrite it. A row that no layer selects is untouched. A layer that no row intersects selects them all. |
| Propagation.TaggedCount | import_py_file_mainlogic_for_toolbox.py:148-170 | updated_features, whose size is total_updated_features, is exactly the set of the ids assigned. |
| Propagation.TagVisited | Update_Fields_Toolbox.py:219-224 | The update cursor loop over the rows a selection yields performs one layer's pass. |
| Propagation.TagLayer | Update_Fields_Toolbox.py:215-224 | The selection is computed, empty selection meaning every row, and the cursor performs that layer's pass. |
| Propagation.UpdateFieldBasedOnWhetherItLies | Update_Fields_Toolbox.py:202-232 | The rows become the first-wins tagging, and the returned total is the number of distinct ids assigned. |
| Propagation.SelectedIds | Update_Fields_Toolbox.py:181-183 | intersecting_ids, the ids the search cursor of the selection yields. Its meaning is stated by SelectedIdsMember and EmptySelectionCollectsAll. |
| Propagation.SelectedIdsMember | Update_Fields_Toolbox.py:181-183 | An OBJECTID is collected for a layer exactly when the layer's selection holds a target row with that id. |
| Propagation.EmptySelectionCollectsAll | Update_Fields_Toolbox.py:181-183 | When no target row intersects the layer, the cursor yields every target id. |
| Propagation.LastLayerFeedsSelection | Update_Fields_Toolbox.py:181-197 | A row that the final cursor visits has its id collected from the last source layer, when that layer has a feature. |
| Propagation.Classify | Update_Fields_Toolbox.py:259-275 | The inner loop with its break. Its meaning is stated by ClassifyFirstMatch and ClassifyNoMatch. |
| Propagation.ClassifyFirstMatch | Update_Fields_Toolbox.py:306-322 | The first station, in iteration order, that the shape is within or matches by the second relation decides the status: 'Inside' for within, otherwise the second label. The status comes with that station's GLOBALID. |
| Propagation.ClassifyNoMatch | Update_Fields_Toolbox.py:259-275 | A shape that matches no station is 'Outside', with a None station GLOBALID. |
| Propagation.ClassifyRow | Update_Fields_Toolbox.py:255-275 | One row of the classification cursor: station GLOBALID and status. Its meaning is stated by ClassifyFirstMatch and ClassifyNoMatch. |
| Propagation.ClassifiedRow | Update_Fields_Toolbox.py:241-278 | One row after the whole call, the status field deleted again when it was added. Its meaning is stated by StatusDiscardedWhenFieldAdded. |
| Propagation.StatusDiscardedWhenFieldAdded | import_py_file_mainlogic_for_toolbox.py:182-214 | When the status field had to be added, it is deleted again, so only MIG_STATIONGUID survives in the row. |
| Propagation.ClassifyShape | Update_Fields_Toolbox.py:259-275 | The inner loop with its break computes the first-match classification. |
| Propagation.WriteClassifications | Update_Fields_Toolbox.py:256-275 | The update cursor writes each row's station GLOBALID and status. |
| Propagation.ClassifyAgainstStations | import_py_file_mainlogic_for_toolbox.py:182-215 | The schema is unchanged in the end, whether or not fieldName had to be added. Each row is classified into the hard-coded status field. |
| Propagation.StationDict | Update_Fields_Toolbox.py:254 | station_dict. Tables.DictFromPairsKeys and Tables.DictFromPairsLastWins state its keys and values. |
| Propagation.BuildStationDict | Update_Fields_Toolbox.py:254 | The search cursor builds station_dict, last row winning per GLOBALID. |
| Propagation.UpdateLineFcWithinStationBoundary | Update_Fields_Toolbox.py:235-278 | Lines are classified with within first, then not disjoint ('Partly Inside'), into LINE_STATUS. |
| Propagation.UpdatePointFcWithinStationBoundary | Update_Fields_Toolbox.py:281-325 | Points are classified with within first, then touches ('On Boundary'), into POINT_STATUS. |
| Propagation.HasRelationship | Update_Fields_Toolbox.py:328-339 | Some circuit source row carries the id. CheckRelationship computes it. |
| Propagation.CheckRelationship | Update_Fields_Toolbox.py:328-339 | The result is true exactly when some circuit source's CIRCUITBREAKER_GUID equals the id. |
| UpdateFieldsToolbox.LastWinsUpdates | Update_Fields_Toolbox.py:176-188 | voltage_updates after all source layers. Its meaning is stated by LastWinsVoltage and NoFeedNoVoltage. |
| UpdateFieldsToolbox.PutAll | Update_Fields_Toolbox.py:187-188 | One voltage written to every collected id. Its meaning is stated by PutAllEffect. |
| UpdateFieldsToolbox.PutEach | Update_Fields_Toolbox.py:185-188 | Every voltage of one source cursor in turn. Its meaning is stated by PutEachEffect. |
| UpdateFieldsToolbox.PutAllIds | Update_Fields_Toolbox.py:187-188 | The inner loop over intersecting_ids computes PutAll. |
| UpdateFieldsToolbox.PutAllEffect | Update_Fields_Toolbox.py:187-188 | Writing a voltage to the collected ids adds exactly those ids and overwrites their previous entries. |
| UpdateFieldsToolbox.PutEachEffect | Update_Fields_Toolbox.py:185-188 | Over one layer's features, the ids end with the last feature's voltage. |
| UpdateFieldsToolbox.LastWinsVoltage | Update_Fields_Toolbox.py:176-188 | A target takes the voltage of the last feature of the last source layer that has a feature and whose selection holds the target. |
| UpdateFieldsToolbox.NoFeedNoVoltage | Update_Fields_Toolbox.py:176-188 | A target that no source layer with a feature selects gets no entry. |
| UpdateFieldsToolbox.VoltageRow | Update_Fields_Toolbox.py:192-197 | One row of the final update cursor. Its meaning is stated by SelectedRowsTakeLastFeatureVoltage. |
| UpdateFieldsToolbox.SelectedRowsTakeLastFeatureVoltage | Update_Fields_Toolbox.py:176-197 | A row the final cursor visits ends up with the voltage of the last feature of the last source layer that selects it. |
| UpdateFieldsToolbox.CollectVoltageUpdates | Update_Fields_Toolbox.py:178-188 | The collection loops build the last-wins voltage_updates. |
| UpdateFieldsToolbox.UpdateVoltageFromMultipleSources | Update_Fields_Toolbox.py:165-197 | The schema is kept, and each row of the last selection whose id was collected is overwritten with its voltage. |
| UpdateFieldsToolbox.IsSourceValue | Update_Fields_Toolbox.py:351-363 | The new MIG_ISSOURCE of one breaker. Its meaning is stated by IsSourceValueCases and IsSourceValueNoVoltage. |
| UpdateFieldsToolbox.IsSourceRow | Update_Fields_Toolbox.py:350-364 | One breaker row under the rule. Its meaning is stated by IsSourceRowIdempotent. |
| UpdateFieldsToolbox.IsSourceValueCases | Update_Fields_Toolbox.py:351-363 | For a voltage text that starts with decimal digits of any script, the rule gives 2 for a subsource of at most 1 kV, otherwise 1 for a related breaker above 1 kV and up to 60 kV, and otherwise leaves the value unchanged. |
| UpdateFieldsToolbox.IsSourceValueNoVoltage | Update_Fields_Toolbox.py:351-363 | A voltage text that does not start with a decimal digit counts as 0 kV: a subsource gets 2, and every other breaker keeps its value. |
| UpdateFieldsToolbox.IsSourceRowIdempotent | Update_Fields_Toolbox.py:341-364 | Applying the rule twice gives the same row as applying it once. |
| UpdateFieldsToolbox.UpdateMigIsSource | Update_Fields_Toolbox.py:341-364 | Every breaker row is rewritten by the rule. A non-text OPERATINGVOLTAGE stops the run at that row: the earlier rows are updated and the later rows are not. |
| MainLogic.PutAbsent | import_py_file_mainlogic_for_toolbox.py:126-128 | One voltage offered to every collected id. Its meaning is stated by PutAbsentEffect. |
| MainLogic.PutEachAbsent | import_py_file_mainlogic_for_toolbox.py:124-128 | Every voltage of one source cursor in turn. Its meaning is stated by PutEachAbsentEffect. |
| MainLogic.PutAbsentIds | import_py_file_mainlogic_for_toolbox.py:126-128 | The inner loop over intersecting_ids computes PutAbsent. |
| MainLogic.PutAbsentEffect | import_py_file_mainlogic_for_toolbox.py:125-128 | Offering a voltage adds the new ids and never replaces an existing entry. |
| MainLogic.PutEachAbsentEffect | import_py_file_mainlogic_for_toolbox.py:123-128 | Over one layer's features, a new id gets the first feature's voltage. |
| MainLogic.FirstWinsUpdates | import_py_file_mainlogic_for_toolbox.py:118-128 | voltage_updates after all source layers. Its meaning is stated by FirstWinsKeys and FirstWinsVoltage. |
| MainLogic.FirstWinsKeys | import_py_file_mainlogic_for_toolbox.py:118-128 | An id gets an entry exactly when some source layer with a feature selects its target. |
| MainLogic.FirstWinsVoltage | import_py_file_mainlogic_for_toolbox.py:118-128 | A target takes the voltage of the first feature of the first source layer, in list order, that has a feature and selects it. The comment at line 128 says otherwise. |
| MainLogic.FillRow | import_py_file_mainlogic_for_toolbox.py:130-135 | One row of the final update cursor. Its meaning is stated by FillKeepsSetVoltages, FillRowIdempotent and SelectedBlankRowsTakeFirstVoltage. |
| MainLogic.FillKeepsSetVoltages | import_py_file_mainlogic_for_toolbox.py:130-135 | A voltage that is neither None nor '' is never changed, and no other field is. |
| MainLogic.FillRowIdempotent | import_py_file_mainlogic_for_toolbox.py:130-135 | Filling twice gives the same row as filling once. |
| MainLogic.SelectedBlankRowsTakeFirstVoltage | import_py_file_mainlogic_for_toolbox.py:118-135 | A blank row that the final cursor visits takes the voltage of the first feature of the first source layer that selects it. |
| MainLogic.CollectVoltageUpdates | import_py_file_mainlogic_for_toolbox.py:118-128 | The collection loops build the first-wins voltage_updates. |
| MainLogic.UpdateVoltageFromMultipleSources | import_py_file_mainlogic_for_toolbox.py:114-135 | The schema is kept, and every row is filled only where its voltage is blank. |
| MainLogic.IsSourceValue | import_py_file_mainlogic_for_toolbox.py:294-298 | The voltage-free rule for one breaker. IsSourceVersionsDiffer compares it with the toolbox rule. |
| MainLogic.IsSourceVersionsDiffer | import_py_file_mainlogic_for_toolbox.py:294-298 | This is the exact set of inputs on which the voltage-free rule and the toolbox rule write different values. |
| MainLogic.IsSourceRow | import_py_file_mainlogic_for_toolbox.py:287-300 | One breaker row under the voltage-free rule. Its meaning is stated by IsSourceRowIdempotent. |
| MainLogic.IsSourceRowIdempotent | import_py_file_mainlogic_for_toolbox.py:278-300 | Applying the voltage-free rule twice gives the same row as applying it once. |
| MainLogic.UpdateMigIsSource | import_py_file_mainlogic_for_toolbox.py:278-300 | Every breaker row is rewritten by the voltage-free rule. |
| CopyFieldsToolbox.PathError | Copy_Fields_Toolbox.py:69-87 | The two path checks, in order. Its meaning is stated by PathsAccepted. |
| CopyFieldsToolbox.PathsAccepted | Copy_Fields_Toolbox.py:69-87 | Paths that pass the checks differ, and both end in the same last component. |
| CopyFieldsToolbox.CopyPlan | Copy_Fields_Toolbox.py:97-107 | The loop over the template fields. Its meaning is stated by CopyPlanAdded, CopyPlanDuplicate, CopyPlanCount and CopyPlanAddedNames. |
| CopyFieldsToolbox.CopyPlanAdded | Copy_Fields_Toolbox.py:97-107 | A field is added exactly when it is a template field that is neither OBJECTID nor Shape and is not already in the target. |
| CopyFieldsToolbox.CopyPlanDuplicate | Copy_Fields_Toolbox.py:97-102 | A name is reported exactly when a template field of that name is not OBJECTID or Shape and is already in the target. |
| CopyFieldsToolbox.CopyPlanCount | Copy_Fields_Toolbox.py:97-107 | Every template field is exactly one of excluded, reported or added. |
| CopyFieldsToolbox.CopyPlanAddedNames | Copy_Fields_Toolbox.py:99-107 | Every added name is a template name that the target did not have. |
| CopyFieldsToolbox.WithNulls | Copy_Fields_Toolbox.py:107 | A row after the added fields. Its meaning is stated by WithNullsEffect. |
| CopyFieldsToolbox.WithNullsEffect | Copy_Fields_Toolbox.py:107 | An added field reads None in every row. Every existing field keeps its value. |
| CopyFieldsToolbox.WarningText | Copy_Fields_Toolbox.py:116-120 | The warning frame both tools share. Its meaning is stated by WarningTextSingular and WarningTextPlural. |
| CopyFieldsToolbox.WarningTextSingular | Copy_Fields_Toolbox.py:116-120 | For one duplicate the frame reads "Warning: The field N already exists in P. Field" and the tool's closing words. |
| CopyFieldsToolbox.WarningTextPlural | Copy_Fields_Toolbox.py:116-120 | For several duplicates the frame reads "Warning: The fields N already exist in P. Fields" and the tool's closing words. |
| CopyFieldsToolbox.DuplicateWarning | Copy_Fields_Toolbox.py:116-120 | This tool's warning: the target database, "will not be overwritten". Its meaning is stated by WarningSingular and WarningPlural. |
| CopyFieldsToolbox.WarningSingular | Copy_Fields_Toolbox.py:116-120 | One duplicate gives "Warning: The field N already exists in the target database. Field will not be overwritten." |
| CopyFieldsToolbox.WarningPlural | Copy_Fields_Toolbox.py:116-120 | Several duplicates give the plural wording, the names joined by ", ". |
| CopyFieldsToolbox.AddTemplateFields | Copy_Fields_Toolbox.py:90-107 | The loop reports the duplicates and appends the fields to add, with name, type and length, in template order. |
| CopyFieldsToolbox.Execute | Copy_Fields_Toolbox.py:62-122 | Identical paths or differing last components raise before any change. Otherwise the planned fields are added, and the warning is issued only if there are duplicates. |
| CopyFieldsFromCsv.GroupByClass | Copy_Fields_from_CSV_Toolbox.py:117-125 | fields_to_add. Its meaning is stated by GroupByClassSpec and RowsOfClassAbsent. |
| CopyFieldsFromCsv.GroupByClassSpec | Copy_Fields_from_CSV_Toolbox.py:117-125 | The classes appear in first-appearance order, and each holds exactly its own rows in file order. |
| CopyFieldsFromCsv.RowsOfClass | Copy_Fields_from_CSV_Toolbox.py:121-125 | The rows of one class in file order. Its meaning is stated by GroupByClassSpec and RowsOfClassAbsent. |
| CopyFieldsFromCsv.RowsOfClassAbsent | Copy_Fields_from_CSV_Toolbox.py:121-125 | A class the file does not name has no rows. |
| CopyFieldsFromCsv.GroupRows | Copy_Fields_from_CSV_Toolbox.py:117-125 | The DictReader loop builds fields_to_add. |
| CopyFieldsFromCsv.FieldFor | Copy_Fields_from_CSV_Toolbox.py:96-105 | The AddField call of one CSV row. Its meaning is stated by TextKeepsLength. |
| CopyFieldsFromCsv.TextKeepsLength | Copy_Fields_from_CSV_Toolbox.py:96-100 | A data type written "Text" is upper-cased to TEXT, so the field is added with its length. |
| CopyFieldsFromCsv.AddPlan | Copy_Fields_from_CSV_Toolbox.py:77-106 | The field loop of one class. Its meaning is stated by AddPlanNames, AddPlanKeepsNamesDistinct and AddPlanCount. |
| CopyFieldsFromCsv.AddPlanNames | Copy_Fields_from_CSV_Toolbox.py:78-106 | After the loop the class has every field the file names for it, and no other new field. |
| CopyFieldsFromCsv.AddPlanKeepsNamesDistinct | Copy_Fields_from_CSV_Toolbox.py:78-81 | No field is added twice or over an existing one. |
| CopyFieldsFromCsv.AddPlanCount | Copy_Fields_from_CSV_Toolbox.py:78-106 | Every row of a class is either added or reported. |
| CopyFieldsFromCsv.DuplicateWarning | Copy_Fields_from_CSV_Toolbox.py:108-112 | This tool's warning: the feature class, "have not been overwritten". Its meaning is stated by WarningSingular and WarningPlural. |
| CopyFieldsFromCsv.WarningSingular | Copy_Fields_from_CSV_Toolbox.py:108-112 | One duplicate gives the singular wording, which names the feature class. |
| CopyFieldsFromCsv.WarningPlural | Copy_Fields_from_CSV_Toolbox.py:108-112 | Several duplicates give the plural wording, the names joined by ", ". |
| CopyFieldsFromCsv.ClassStep | Copy_Fields_from_CSV_Toolbox.py:72-112 | One call of add_fields_to_feature_class. Its meaning is stated through RunClassesAddsFields and RunClassesFirstMissing. |
| CopyFieldsFromCsv.RunClasses | Copy_Fields_from_CSV_Toolbox.py:128-130 | The loop over fields_to_add. Its meaning is stated by the four RunClasses lemmas below. |
| CopyFieldsFromCsv.Run | Copy_Fields_from_CSV_Toolbox.py:61-132 | Tool.execute. Its meaning is stated by RunAddsFields. |
| CopyFieldsFromCsv.RunClassesKeepsClasses | Copy_Fields_from_CSV_Toolbox.py:128-130 | No run creates or removes a feature class. |
| CopyFieldsFromCsv.RunClassesCompletes | Copy_Fields_from_CSV_Toolbox.py:74-75 | The run raises exactly when some class of the file is missing from the workspace. |
| CopyFieldsFromCsv.RunClassesFirstMissing | Copy_Fields_from_CSV_Toolbox.py:128-130 | The OSError names the first missing class. The classes before it stay modified and the classes after it are not reached. |
| CopyFieldsFromCsv.RunClassesAddsFields | Copy_Fields_from_CSV_Toolbox.py:128-130 | Each class is processed once: it gains the fields planned for its rows. Classes that are not listed are unchanged. |
| CopyFieldsFromCsv.RunAddsFields | Copy_Fields_from_CSV_Toolbox.py:61-132 | After a complete run, each workspace class has the fields planned for the file's rows of that class appended. |
| CopyFieldsFromCsv.Workspace.AddFieldsToFeatureClass | Copy_Fields_from_CSV_Toolbox.py:72-112 | The new schemas, the warning and the error are those of one class step. |
| CopyFieldsFromCsv.Workspace.RunGroups | Copy_Fields_from_CSV_Toolbox.py:128-130 | The class loop stops when a step raises. |
| CopyFieldsFromCsv.Workspace.Execute | Copy_Fields_from_CSV_Toolbox.py:61-132 | The state after the method is the modelled run: the path check, the grouping, then the classes. |
| ExcelSubstitution.SubstituteCells | coping_replacing_values_in_Excel.py:56 | `map(mapping).fillna(column)` keeps the length and treats each cell on its own. |
| ExcelSubstitution.SubstituteCellsChange | coping_replacing_values_in_Excel.py:56 | A cell changes exactly when it holds a code of the mapping, and then it holds that code's label. |
| ExcelSubstitution.SubstituteCellsIdempotent | coping_replacing_values_in_Excel.py:56 | Substituting again changes nothing. |
| ExcelSubstitution.SubstituteColumn | coping_replacing_values_in_Excel.py:56 | Substitution keeps the column labels and their order. |
| ExcelSubstitution.SubstituteAll | coping_replacing_values_in_Excel.py:54-56 | The mapping loop of one sheet. Its meaning is stated by SubstituteAllOutcome and SubstituteAllEffect. |
| ExcelSubstitution.SubstituteAllOutcome | coping_replacing_values_in_Excel.py:54-56 | A KeyError names the first listed label the sheet lacks. Otherwise the labels are kept. |
| ExcelSubstitution.SubstituteAllEffect | coping_replacing_values_in_Excel.py:54-56 | Listed columns are substituted by their own mapping. Every other column is as read. |
| ExcelSubstitution.SubstituteSheet | coping_replacing_values_in_Excel.py:55-56 | The column loop does the whole sheet substitution. |
| ExcelSubstitution.DropColumn | coping_replacing_values_in_Excel.py:52 | `df.drop(columns=[column])`. Its meaning is stated by DropColumnSpec. |
| ExcelSubstitution.DropColumnSpec | coping_replacing_values_in_Excel.py:51-52 | After the drop no column has that label, and every other column is kept. |
| ExcelSubstitution.ProcessSheet | coping_replacing_values_in_Excel.py:50-57 | One sheet of apply_substitutions. Its meaning is stated by ProcessSheetUnlisted, ProcessSheetDropsLink and SubstituteAllEffect. |
| ExcelSubstitution.ProcessSheetUnlisted | coping_replacing_values_in_Excel.py:51-57 | A sheet that is not 'Стълб' and has no mapping is written as read. |
| ExcelSubstitution.ProcessSheetDropsLink | coping_replacing_values_in_Excel.py:51-52 | 'Стълб' comes out without 'Линк', and it raises when it has no 'Линк' column. |
| ExcelSubstitution.ProcessSheets | coping_replacing_values_in_Excel.py:49-57 | The sheets in workbook order until one raises. Its meaning is stated by ProcessSheetsOrder. |
| ExcelSubstitution.ProcessSheetsOrder | coping_replacing_values_in_Excel.py:49-57 | The output sheets correspond one for one, in order, to the input sheets. |
| ExcelSubstitution.CommentsSheet | coping_replacing_values_in_Excel.py:59-62 | The comments sheet 'Коментари в ГИС' has no rows and eight fixed columns. |
| ExcelSubstitution.ApplySubstitutions | coping_replacing_values_in_Excel.py:46-63 | The sheets are processed in order and the comments sheet is appended, or the first error is returned. |
| ExcelSubstitution.HeaderBounds | coping_replacing_values_in_Excel.py:17-31 | The start and end of `header_length.get`. Its meaning is stated by PySliceDropsEnds and ExtractHeadersDefault. |
| ExcelSubstitution.PySlice | coping_replacing_values_in_Excel.py:32 | Python's slice with negative and None ends. Its meaning is stated by PySliceDropsEnds and PySliceOpenEnd. |
| ExcelSubstitution.PySliceDropsEnds | coping_replacing_values_in_Excel.py:18 | The slice [1:-3] of 'Стълб' leaves out the first cell and the last three. |
| ExcelSubstitution.PySliceOpenEnd | coping_replacing_values_in_Excel.py:19-23 | A None end keeps everything from start on. |
| ExcelSubstitution.DropEmpty | coping_replacing_values_in_Excel.py:32 | `dropna()` never lengthens. DropEmptyMember states which cells it keeps. |
| ExcelSubstitution.DropEmptyMember | coping_replacing_values_in_Excel.py:32 | dropna keeps exactly the non-empty cells. |
| ExcelSubstitution.ExtractHeaders | coping_replacing_values_in_Excel.py:31-32 | No extracted header is empty. ExtractHeadersDefault and PySliceDropsEnds state which cells are taken. |
| ExcelSubstitution.ExtractHeadersDefault | coping_replacing_values_in_Excel.py:31-32 | An unconfigured sheet takes all the non-empty cells of its first row as headers. |
| ExcelSubstitution.ExtendedHeaders | coping_replacing_values_in_Excel.py:34 | additional_headers. Its meaning is stated by ExtendedHeadersShape. |
| ExcelSubstitution.ExtendedHeadersShape | coping_replacing_values_in_Excel.py:34 | The extension is the headers followed by 6 cells, 'Забележка ЕРМЗ' and 'Pontech' in turn. |
| ExcelSubstitution.AppendHeaderRow | coping_replacing_values_in_Excel.py:36 | The concat keeps every row as a prefix of its new row. |
| ExcelSubstitution.ModifySheet | coping_replacing_values_in_Excel.py:29-37 | One sheet of add_additional_headers. Its meaning is stated by ModifySheetShape. |
| ExcelSubstitution.ModifySheetShape | coping_replacing_values_in_Excel.py:32-36 | The first row ends with the extended headers, the other rows are padded with empty cells, and the name and row count are kept. |
| ExcelSubstitution.AddAdditionalHeaders | coping_replacing_values_in_Excel.py:15-37 | IndexError comes exactly from the first sheet that has no row. Otherwise each sheet is modified in turn. |
| AssociationRecords.MakeRecord | many_to_many.py:30-44 | The record carries FROMGLOBALID t and TOGLOBALID u, and its other columns are the fixed constants. |
| AssociationRecords.MakeRecordInjective | one_to_many.py:17-31 | A record is determined by its two ids. |
| ManyToMany.UnitRecords | many_to_many.py:28-44 | The inner loop of one transformer. Its meaning is stated by UnitRecordsSpec. |
| ManyToMany.Build | many_to_many.py:27-44 | The outer loop. Its meaning is stated by BuildSpec. |
| ManyToMany.UnitRecordsSpec | many_to_many.py:28-29 | For one transformer, the records are exactly the units that also list it back, and there is a KeyError exactly when a unit is missing. |
| ManyToMany.BuildSpec | many_to_many.py:27-44 | A record for (t, u) exists iff u is listed under t and t under u. A KeyError arises iff some listed unit is missing, and there are never more records than list entries. |
| ManyToMany.AppendUnitRecords | many_to_many.py:28-44 | The inner loop appends exactly UnitRecords to data, or stops at its KeyError. |
| ManyToMany.BuildAssociations | many_to_many.py:27-44 | The nested loop builds the records in key order, then list order. |
| OneToMany.Build | one_to_many.py:15-31 | The outer loop. Its meaning is stated by BuildSpec. |
| OneToMany.BuildSpec | one_to_many.py:15-31 | There is one record per list entry, duplicates included, and a record for (t, u) exists iff u is listed under t. |
| OneToMany.UnitRecords | one_to_many.py:16-31 | Record j is the record for the j-th unit of the list. |
| OneToMany.BuildAssociations | one_to_many.py:15-31 | The nested loop builds the records in key order, then list order. |
| OneToOne.Zip | one_to_one.py:19 | zip gives as many pairs as the shorter list has elements, and pair i is (a[i], b[i]). |
| OneToOne.ZipTruncates | one_to_one.py:19 | Zipping only truncates: the pairs are those of the common prefix. |
| OneToOne.ZipDemo | one_to_one.py:72-77 | The demonstration yields the three tuples shown in its comment. |
| OneToOne.BuildAssociations | one_to_one.py:19-34 | Record i pairs transformers[i] with transformer_units[i] under 'Overhead Line End MV', with one record per zip pair. |
| Camping.PriceOfTheDay | camping.py:29-30 | price_of_the_day. Its meaning is stated by PriceOfTheDayLinear. |
| Camping.PriceOfTheDayLinear | camping.py:21-30 | The daily price 25a + 35b + 70c + 55d is additive, and it is non-negative for non-negative counts. |
| Camping.Remaining | camping.py:36-48 | The four counters after the given days. Its meaning is stated by RemainingIsInitialLessOccupied and CountersCanGoNegative. |
| Camping.Occupied | camping.py:36-48 | The counts entered kind by kind. RemainingIsInitialLessOccupied relates it to the counters. |
| Camping.RemainingIsInitialLessOccupied | camping.py:36-48 | Each counter is its initial value less everything entered. |
| Camping.CountersCanGoNegative | camping.py:36-48 | Entering more than is free drives a counter below zero. |
| Camping.DayPrice | camping.py:44-56 | The price of one day. Its meaning is stated by DailyPricesAt. |
| Camping.DailyPrices | camping.py:33-58 | One price per day of the season. Its meaning is stated by DailyPricesAt and TotalWithoutSeventhDays. |
| Camping.DailyPricesAt | camping.py:44-56 | Day i is priced by its own entries, except that every seventh day prices the remaining caravan lots. |
| Camping.TotalWithoutSeventhDays | camping.py:50-56 | Over fewer than seven days, the total is the price of all the occupancy entered. |
| Camping.Season | camping.py:33-58 | The loop runs for days 1 to N. total_sum is the sum of the printed daily prices, and the counters are those remaining. |

## Left out

- ArcPy itself is abstracted: cursors, layers, selections, ListFields, Exists, AddField, DeleteField and the messages. Cursors are sequences and messages are returned values.
- Selections are modelled by ArcGIS's rule for cursors on a layer: the cursor visits the selected rows, and every row when the selection is empty. A layer's INTERSECT selection is the target rows that intersect some of its features. The final update cursor of `update_voltage_from_multiple_sources` visits the last source layer's selection (`InLastSelection`). Selections made by an earlier script run are not modelled.
- Strings.LeadingDigits: `\d` and `int()` accept every Unicode decimal digit. The model takes the interpreter's digit table (`unicodedata.decimal`) as a parameter, because it depends on the Unicode version of the interpreter. Strings.NatToString writes ASCII digits, as `str()` does.
- Geometry predicates are uninterpreted, and `str()` of a geometry is not modelled.
- ListFields is modelled by exact name comparison: its wildcard and case-insensitive matching are not modelled.
- `Strings.Upper` and `Strings.Capitalize` change ASCII letters only.
- Missing fields that the vendor calls would reject are preconditions.
- pandas: NaN and `dropna` are the `Null` value. Cell codes are integers, so float codes such as 1.0 are not modelled.
- Workbook reading and writing are not modelled: sheets are parameters and results.
- The call of `apply_substitutions` on global paths inside `add_additional_headers` (coping_replacing_values_in_Excel.py:39) and the script lines at the end of that file are script wiring, not modelled.
- Propagation.UpdateFcSelf: the contract states that the reported fields are distinct targets. It does not state which populated fields are reported, because that depends on message throttling across rows.
- UpdateFieldsToolbox.UpdateMigIsSource: `re.match` on a None OPERATINGVOLTAGE raises TypeError. The model stops at that row; the exception itself is not modelled.
- Camping: `input()` and the prints are parameters and results. The three other `_today` assignments on a multiple of 7 (camping.py:51-52, 54) write variables that are never read again, and are omitted.
- CopyFieldsFromCsv: only the schemas of the workspace's feature classes are modelled, not their rows. The warning keeps the tool's own wording, "have not been overwritten".
- ExcelSubstitution.SubstituteColumn: when several columns share a label, every column of that label is substituted. Duplicate labels in pandas are not modelled further.
- `main()` in the two field-propagation files, with its hard-coded sequence of calls, is configuration and is not modelled. The same goes for the Toolbox and Tool classes and their parameter methods.
- create_polygons_from_points_ArcGIS_Pro.py is not part of this model: it uses float coordinates and geometry construction.
- file_existence.py is not part of this model: it makes OS stat calls and formats dates.
- file_attributes.py is not part of this model: it holds getter records and demonstration prints only.
