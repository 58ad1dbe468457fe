# python-dbdiff, modelled in Dafny

python-dbdiff compares two relational databases. The schema side reads each database's catalog into an entity model (tables with their columns, indexes and constraints, plus routines) and partitions corresponding entities: the same on both sides, changed, or present on one side only. Table names can optionally be matched through a canonicalizing hook such as upper-casing. The data side builds a primary-key row key for one table pair and hash-joins the rows of the two databases. Adapters for MySQL and Postgres turn catalog rows into entities, and a small reader parses `key=value` credential files.

This project models that core and proves what each part promises:

- the entity model, column diff and canonicalizing copies (`Schema`), with the generic first-match lookup and four-way partition they are built from (`Partition`);
- the name-keyed containers `Database` and `SchemaAwareDatabase` (`Databases`). These are classes whose methods update their dictionaries;
- the table and procedure list comparison, and the foreign-key ordering `TopoSort` (`Compare`);
- the row diff (`TableDiff`);
- the post-query processing of the MySQL adapter (`MySql`) and the Postgres adapter (`Postgres`), and the query strings both assemble (`Queries`);
- the credentials reader (`Credentials`);
- the older top-level versions of the entity model, comparison and row diff (`LegacySchema`, `LegacyCompare`, `LegacyTableDiff`). Each is proved to agree with the newer one when no canonicalizer is given, or shown to disagree where their equality field lists differ.

Python's insertion-ordered `dict` is the datatype `OrderedMaps.OrdMap` (`text.dfy` holds the string operations the code relies on). `Wrappers` holds Option, Result and the three Python exceptions the core raises: `ValueError`, `TypeError` and `KeyError`. A Python class hierarchy (`Column`, `MySQLColumn`, `PostgresColumn`) is a `kind` field, so equality across concrete classes is false, as the source's type checks make it.

## Model

| member | source | states |
|---|---|---|
| Schema.ColumnEqIgnoresOnlySchema | src/schema/__init__.py:20-33 | two columns are equal exactly when they agree on everything except their schema |
| Schema.DiffMapMember | src/schema/__init__.py:40-47 | an attribute is in the diff map exactly when it is listed and its two values differ, and it then holds the left value |
| Schema.Diff | src/schema/__init__.py:35-48 | `diff` raises `TypeError` naming the other column's class when the classes differ and returns `(False, None, None)` for equal columns; otherwise both maps hold exactly the attributes whose values differ, each with its own side's value |
| Schema.DiffNotEmpty | src/schema/__init__.py:38-47 | two unequal columns of one class differ in at least one reported attribute |
| Schema.DiffMapSymmetric | src/schema/__init__.py:40-47 | the two maps report the same attributes |
| Schema.CopyColumn | src/schema/__init__.py:51-55 | the copy differs from the column at most in its table name, which is canonicalized when a hook is given |
| Schema.ColumnSameIff | src/schema/__init__.py:236-248 | without a hook a column is in `same` exactly when it equals its like-named partner; with a hook, exactly when the canonicalized copies are equal, which includes plain equality |
| Schema.CopyIndex | src/schema/__init__.py:106-110 | the copy differs from the index at most in its table name, which is canonicalized when a hook is given |
| Schema.DiffIndexColumns | src/schema/__init__.py:83-103 | every descriptor of the first index lands in exactly one of sames / diffs / only1 by name; sames holds exactly the descriptors equal to the first like-named one, and only2 the descriptors of the second index whose name the first lacks |
| Schema.KindPredicates | src/schema/__init__.py:139-143 | the base constraint is neither a primary nor a foreign key; an adapter's constraint is a primary key exactly for type `PRIMARY KEY` and a foreign key exactly for `FOREIGN KEY`, never both |
| Schema.CopyConstraint | src/schema/__init__.py:146-153 | the copy differs at most in its table and referenced table, each canonicalized only when present |
| Schema.NewTable | src/schema/__init__.py:165-176 | a new table has the given name, schema and rows and no columns, constraints or indexes |
| Schema.FullName | src/schema/__init__.py:178-182 | the full name is `schema.name` when there is a schema, else the name |
| Schema.PrimaryKeyColumns | src/schema/__init__.py:224-226 | there are no more key columns than columns |
| Schema.PrimaryKeyColumnsMembers | src/schema/__init__.py:224-226 | the key columns are exactly the columns whose flag is set |
| Schema.PrimaryKeyColumnsAppend | src/schema/__init__.py:224-226 | the key columns of two lists one after the other are those of the first list followed by those of the second, so column order is kept |
| Schema.GetColumn | src/schema/__init__.py:193-199 | `get_column` returns the first column of that name, and `None` exactly when there is none |
| Schema.GetColumnByPosition | src/schema/__init__.py:201-207 | `get_column_by_position` returns the first column at that position, and `None` exactly when there is none |
| Schema.GetConstraint | src/schema/__init__.py:209-213 | `get_constraint` returns the first constraint of that name, and `None` exactly when there is none |
| Schema.GetIndex | src/schema/__init__.py:215-219 | `get_index` returns the first index of that name, and `None` exactly when there is none |
| Schema.IndexGetColumn | src/schema/__init__.py:65-70 | `Index.get_column` returns the first descriptor of that name, and `None` exactly when there is none |
| Schema.AddIndex | src/schema/__init__.py:221-222 | `add_index` appends the index and changes nothing else |
| Schema.AddIndexThenGet | src/schema/__init__.py:215-222 | after `add_index`, `get_index` finds the new index exactly when no earlier index had its name, and otherwise what it found before |
| Schema.DiffColumns | src/schema/__init__.py:228-255 | every column of the first table lands in exactly one of same / notsame / only1; only1 holds exactly the columns no like-named column matches, same exactly those that match their first like-named partner (equal, or equal once canonicalized), and only2 the columns of the second table whose name the first lacks |
| Schema.DiffIndexes | src/schema/__init__.py:257-284 | the same partition over indexes |
| Schema.DiffConstraints | src/schema/__init__.py:286-313 | the same partition over constraints, with the canonicalized mismatch going to notsame as intended |
| Schema.DiffConstraintsAsWritten | src/schema/__init__.py:286-313 | as written, `diff_constraints` raises `TypeError('list' object is not callable)` exactly when some constraint differs from its like-named partner even after canonicalization, and otherwise returns the intended partition |
| Schema.NotSameCallRaises | src/schema/__init__.py:298-304 | two like-named foreign keys on different columns reach the defective call under any canonicalizer, where the intended diff reports the constraint as changed |
| Schema.NoCanonNeverRaises | src/schema/__init__.py:298-306 | without a canonicalizer the defective call is never reached |
| Partition.FirstIndex | src/schema/__init__.py:193-199 | the position of the first item with the key: no earlier item has it, and the item there does, or the end |
| Partition.LookupNone | src/schema/__init__.py:193-199 | a lookup finds nothing exactly when no item has the key |
| Partition.FindFirst | src/schema/__init__.py:193-199 | the scan with `break` returns the first item with the key, nothing exactly when none has it |
| Partition.FirstIndexIs | src/schema/__init__.py:193-199 | the first position with the key is characterized by those two conditions |
| Partition.LookupAppend | src/schema/__init__.py:215-222 | after appending, a lookup finds the old result, or the new item when there was none and it has the key |
| Partition.LookupConcat | src/schema/__init__.py:344-349 | a lookup in two lists one after the other is the lookup in the first, else in the second |
| Partition.DiffByName | src/schema/__init__.py:228-255 | the two loops of a diff by name compute the partition function |
| Partition.SelectMember | src/schema/__init__.py:233-248 | an item is in a bucket exactly when it is listed on the left and its lookup on the right sends it there |
| Partition.SelectCovers | src/schema/__init__.py:233-248 | the three left buckets hold every left item exactly as often as it occurs |
| Partition.OnlyLeftIgnoresMatch | src/schema/__init__.py:236-237 | which items are only on the left does not depend on how matches are compared |
| Partition.SwapSwapsOnly | src/schema/__init__.py:228-255 | swapping the two sides swaps only-left and only-right |
| Partition.OnlyRightMember | src/schema/__init__.py:250-254 | an item is only on the right exactly when it is listed there and no left item has its key |
| Partition.SelfDiff | src/schema/__init__.py:228-255 | a list with distinct keys diffed against itself with a reflexive comparison is all same |
| Partition.AllInBucket | src/schema/__init__.py:233-248 | when every left item goes to one bucket, that bucket is the whole list and the others are empty |
| Partition.SelectMap | src/schema/__init__.py:233-248 | mapping the items by a function that keeps keys and the comparison maps each bucket |
| Partition.FirstIndexMap | src/schema/__init__.py:193-199 | mapping the items by a function that keeps keys keeps the first position of each key |
| Partition.FirstIndexSameKeys | src/schema/__init__.py:193-199 | two lists with the same keys position by position find each key at the same place |
| Partition.MapSeq | src/schema/__init__.py:339-341 | a list comprehension maps each item in order |
| Partition.MapSeqAppend | src/schema/__init__.py:339-341 | mapping distributes over concatenation |
| Partition.SpecMap | src/schema/__init__.py:228-255 | mapping both sides by a function that keeps keys and the comparison maps every part of the partition |
| Text.LeadingSpace | src/util/database_credentials.py:9 | the length of the leading whitespace: all of it is whitespace and the next character is not |
| Text.TrailingStart | src/util/database_credentials.py:9 | where the trailing whitespace starts: everything after is whitespace and the character before is not |
| Text.Strip | src/util/database_credentials.py:9 | a stripped string is empty or starts and ends with a non-space |
| Text.StripSlice | src/util/database_credentials.py:9 | a stripped string is a slice of the original |
| Text.StripIdempotent | src/util/database_credentials.py:17-18 | stripping a stripped string changes nothing |
| Text.IndexOf | src/util/database_credentials.py:16 | the position of the first occurrence of a character, or the end |
| Text.Split | src/schema/__init__.py:387-388 | splitting yields at least one part |
| Text.SplitJoin | src/schema/__init__.py:387-388 | joining the parts with the separator gives back the string, and no part holds the separator |
| Text.PrependPart | src/schema/__init__.py:387-388 | a part put in front of the others is the first, followed by the others |
| Text.SplitParts | src/schema/__init__.py:387-388 | a string without the separator splits into itself, and `a` + separator + `b` into `a` and `b` |
| Text.SplitOnce | src/util/database_credentials.py:16 | `split('=', 1)` yields the string when it has no `=`, and otherwise the part before the first `=` and the rest, which join back into the string |
| Text.Upper | main.py:144-145 | the upper-casing canonicalizer keeps the length, leaves no lower-case ASCII letter, turns every lower-case ASCII letter into an upper-case one and keeps every other character |
| Text.Lower | main.py:147-148 | the lower-casing canonicalizer keeps the length, leaves no upper-case ASCII letter, turns every upper-case ASCII letter into a lower-case one and keeps every other character |
| Text.UpperIdempotent | main.py:144-145 | upper-casing a canonical name changes nothing |
| Text.LowerIdempotent | main.py:147-148 | lower-casing a canonical name changes nothing |
| Text.UpperOfLower | main.py:144-148 | upper-casing after lower-casing is upper-casing |
| Text.LowerOfUpper | main.py:144-148 | lower-casing after upper-casing is lower-casing |
| Text.UpperMatchesLower | main.py:157-166 | the `--upper` and `--lower` options match exactly the same pairs of names |
| Text.DigitChar | src/dbdiff/schema/postgres.py:39-40 | the character of a decimal digit |
| Text.NatToString | src/dbdiff/schema/postgres.py:39-40 | the decimal form of a number: digits only, without a leading zero |
| Text.NatToStringParses | src/dbdiff/schema/postgres.py:39-40 | the decimal form reads back as the number |
| Text.NatToStringInjective | src/dbdiff/schema/postgres.py:39-40 | different numbers have different decimal forms |
| OrderedMaps.OrdMap.Get | src/schema/__init__.py:325-329 | a dictionary lookup yields the stored value exactly when the key is present |
| OrderedMaps.OrdMap.Put | src/schema/__init__.py:331-335 | `d[k] = v` stores the value; a present key keeps its place, a new key goes to the end |
| OrderedMaps.OrdMap.Set | src/dbdiff/schema/mysql.py:243-246 | updating the table stored under a present key keeps the key order |
| OrderedMaps.OrdMap.Remove | src/datacompare/tablediff.py:94 | `del d[k]` removes exactly that key and its entry; the remaining keys are the old ones with the gap at the key's place closed, in their old order |
| OrderedMaps.OrdMap.Values | src/schema/__init__.py:339 | `values()` lists the stored values in key insertion order |
| OrderedMaps.Empty | src/schema/__init__.py:321-323 | a new dictionary is empty |
| OrderedMaps.Without | src/datacompare/tablediff.py:94 | removing a key from the key order keeps exactly the other keys |
| OrderedMaps.WithoutConcat | src/datacompare/tablediff.py:94 | removing a key from two key lists one after the other removes it from each, so the order of what remains is kept |
| OrderedMaps.WithoutAt | src/datacompare/tablediff.py:94-101 | with distinct keys, removing the key at position i leaves the keys before it followed by the keys after it |
| OrderedMaps.RemoveKeyLength | src/datacompare/tablediff.py:94 | removing a present key from distinct keys shortens them by one |
| OrderedMaps.WithoutDistinct | src/datacompare/tablediff.py:94 | removing a key keeps the remaining keys distinct |
| OrderedMaps.WithoutAbsent | src/datacompare/tablediff.py:94 | removing an absent key changes nothing |
| OrderedMaps.ValuesOf | src/schema/__init__.py:339 | the values of a key list, in its order |
| Databases.FullNames | src/schema/__init__.py:337-342 | one (canonicalized) full name per table, in order |
| Databases.FullNamesAt | src/schema/__init__.py:337-342 | the i-th name is the (canonicalized) full name of the i-th table |
| Databases.TableList | src/schema/__init__.py:337-342 | `get_table_list` gives one name per stored table |
| Databases.TableListAt | src/schema/__init__.py:337-342 | the i-th listed name is the (canonicalized) full name of the i-th table inserted |
| Databases.TableListOnlyStored | src/schema/__init__.py:337-342 | every listed name is the full name of a stored table |
| Databases.TableListHasStored | src/schema/__init__.py:337-342 | every stored table is listed by its full name |
| Databases.TableListIsKeys | src/schema/__init__.py:331-342 | without a canonicalizer or schemas, the tables are listed by exactly the names they were added under, in insertion order |
| Databases.ProcedureList | src/schema/__init__.py:351-353 | `get_procedure_list` gives the name of each routine, in insertion order |
| Databases.ProcedureListIsKeys | src/schema/__init__.py:334-335 | routines added by `add_routine` are listed by the names they were stored under |
| Databases.FirstConstraintIsLookup | src/schema/__init__.py:344-349 | scanning table by table finds the first constraint with that name among all constraints in table order |
| Databases.FindConstraintIn | src/schema/__init__.py:344-349 | the scanning loop returns the first constraint with that name in the first table that has one, `None` when no table has one |
| Databases.Database.constructor | src/schema/__init__.py:316-323 | a new database has the given name and no tables or routines |
| Databases.Database.Reset | src/schema/__init__.py:319-323 | `reset` renames the database and empties both containers |
| Databases.Database.GetTable | src/schema/__init__.py:325-329 | `get_table` returns the table stored under the name, `None` exactly when there is none; the table carries that name |
| Databases.Database.AddTable | src/schema/__init__.py:331-332 | `add_table` stores the table under its name, replacing a table of that name, and changes nothing else |
| Databases.Database.AddRoutine | src/schema/__init__.py:334-335 | `add_routine` stores the routine under its name and changes nothing else |
| Databases.Database.GetTableList | src/schema/__init__.py:337-342 | `get_table_list` is the list of (canonicalized) full names in insertion order |
| Databases.Database.FindConstraint | src/schema/__init__.py:344-349 | `find_constraint` returns the first match in table order |
| Databases.Database.GetProcedureList | src/schema/__init__.py:351-353 | `get_procedure_list` is exactly the routine names in insertion order |
| Databases.Database.GetProcedure | src/schema/__init__.py:355-359 | `get_procedure` returns the routine stored under the name, `None` exactly when there is none |
| Databases.AddTableThenGet | src/schema/__init__.py:325-332 | after `add_table`, `get_table` finds the new table under its name, other names find what they found before, and the count grows only for a new name |
| Databases.EmptyNamespace | src/schema/__init__.py:373-375 | a new schema is empty and carries its name |
| Databases.InitialNamespaces | src/schema/__init__.py:377-383 | `reset(dbname, schemas)` creates one empty schema for each listed name and no other |
| Databases.InitialNamespacesNext | src/schema/__init__.py:381-383 | each step of the creating loop adds one empty schema |
| Databases.ResolveTableName | src/schema/__init__.py:385-390 | an explicit schema is used as given, and a name with no dot uses the default schema; whatever resolves names either an explicit schema or the default |
| Databases.ResolveDottedName | src/schema/__init__.py:387-388 | `s.n` resolves to schema `s` and table `n` |
| Databases.ResolveTooManyDots | src/schema/__init__.py:387-388 | a name with two or more dots raises `ValueError`, because the two-way unpacking fails |
| Databases.SplitAfterSeparatorFree | src/schema/__init__.py:387-388 | splitting `a.rest` gives `a` followed by the parts of `rest` |
| Databases.LookupTable | src/schema/__init__.py:385-394 | `get_table` raises only `ValueError`; once the name resolves, it raises exactly when the resolved schema is unknown, with the message `Invalid schema: <schema>` (`None` for no schema), and otherwise returns that schema's `get_table` |
| Databases.PutNamespaceValid | src/schema/__init__.py:396-402 | storing a schema under its own name keeps every schema keyed by name |
| Databases.NamespaceForValid | src/schema/__init__.py:396-402 | the schema chosen for an insertion, old or new, is well formed and carries the requested name |
| Databases.AddTableTo | src/schema/__init__.py:396-402 | `add_table` leaves the table findable under its name in its schema's container |
| Databases.AddTableToFrame | src/schema/__init__.py:396-402 | `add_table` adds the schema at the end only when it is missing and leaves every other schema as it was |
| Databases.AddTableToSchemaFrame | src/schema/__init__.py:396-402 | within the schema, only the table's own entry changes, and the routines do not |
| Databases.AddRoutineTo | src/schema/__init__.py:431-437 | `add_routine` leaves the routine findable under its name in its schema's container |
| Databases.AddRoutineToFrame | src/schema/__init__.py:431-437 | `add_routine` adds the schema at the end only when it is missing, leaves every other schema and that schema's tables as they were |
| Databases.AddThenGetTable | src/schema/__init__.py:385-402 | a table added with a schema is found by `get_table(name, schema)` |
| Databases.AddThenGetByFullName | src/schema/__init__.py:385-402 | a table added with a schema is found by its full name `schema.name` |
| Databases.AddThenGetByDefault | src/schema/__init__.py:385-402 | a table of the default schema is found by its bare name |
| Databases.UnknownSchemaRaises | src/schema/__init__.py:392-393 | looking up a table in a schema that was never created raises `ValueError("Invalid schema: ...")` |
| Databases.FlattenMember | src/schema/__init__.py:404-409 | a name is in the extended list exactly when it is in one schema's list |
| Databases.FlattenNext | src/schema/__init__.py:404-409 | each `extend` appends one schema's list |
| Databases.TableLists | src/schema/__init__.py:404-409 | one table list per schema |
| Databases.TableListsAt | src/schema/__init__.py:404-409 | the j-th list is the j-th schema's `get_table_list` |
| Databases.ProcedureLists | src/schema/__init__.py:417-422 | one procedure list per schema |
| Databases.ProcedureListsAt | src/schema/__init__.py:417-422 | the j-th list is the j-th schema's routine names |
| Databases.AddedTableListed | src/schema/__init__.py:396-409 | after `add_table`, the schema-wide `get_table_list` lists the table's full name |
| Databases.SchemaTableListOnlyStored | src/schema/__init__.py:404-409 | every name the schema-wide `get_table_list` gives is the full name of a table stored in some schema |
| Databases.AddedRoutineListed | src/schema/__init__.py:417-437 | after `add_routine`, the schema-wide `get_procedure_list` lists the routine |
| Databases.LookupProcedure | src/schema/__init__.py:424-429 | `get_procedure` uses the given schema or else the default, raises `ValueError("Invalid schema: ...")` exactly when that schema is unknown, and otherwise returns its routine or `None` |
| Databases.AddThenGetProcedure | src/schema/__init__.py:424-437 | a routine added with `add_routine` is found by `get_procedure` in its own schema |
| Databases.SchemaAwareDatabase.constructor | src/schema/__init__.py:369-383 | a new schema-aware database has one empty schema per listed name, or none, and keeps the default schema |
| Databases.SchemaAwareDatabase.GetTable | src/schema/__init__.py:385-394 | `get_table` resolves the name, raises `ValueError` for an unknown schema, and otherwise returns that schema's table or `None` |
| Databases.SchemaAwareDatabase.AddTable | src/schema/__init__.py:396-402 | `add_table` puts the table into its schema, creating it when missing, and changes nothing else |
| Databases.SchemaAwareDatabase.AddRoutine | src/schema/__init__.py:431-437 | `add_routine` puts the routine into its schema, creating it when missing, and changes nothing else |
| Databases.SchemaAwareDatabase.GetTableList | src/schema/__init__.py:404-409 | `get_table_list` is every schema's table list, one after another in schema order |
| Databases.SchemaAwareDatabase.GetProcedureList | src/schema/__init__.py:417-422 | `get_procedure_list` is every schema's routine names, one after another in schema order |
| Databases.SchemaAwareDatabase.FindConstraint | src/schema/__init__.py:411-415 | `find_constraint` raises `ValueError` exactly when the schema is unknown, and otherwise returns that schema's first match |
| Databases.SchemaAwareDatabase.GetProcedure | src/schema/__init__.py:424-429 | `get_procedure` raises `ValueError` for an unknown schema and otherwise returns that schema's routine or `None` |
| Compare.CanonPairs | src/schema/compare.py:23-29 | one `(canonical name, original name)` pair per listed table |
| Compare.CanonPairsAt | src/schema/compare.py:24-29 | the pair of the `i`-th table is its canonical form, or the name itself without a hook, followed by the name |
| Compare.DiffTableList | src/schema/compare.py:16-49 | `diff_table_list` computes the table-list diff function |
| Compare.MatchFirst | src/schema/compare.py:31-39 | the db1 loop, with its `break` at the first match, computes the matched and the unmatched pairs |
| Compare.KeepUnmatched | src/schema/compare.py:41-48 | the db2 loop keeps exactly the pairs whose canonical name db1 lacks |
| Compare.MatchedUnmatchedCount | src/schema/compare.py:31-39 | every db1 table lands in exactly one of `both` and `only1` |
| Compare.UnmatchedMember | src/schema/compare.py:38-39 | a pair is unmatched exactly when it is listed and no pair of the other list has its canonical name |
| Compare.MatchedMember | src/schema/compare.py:33-37 | `both` holds exactly, for each matched db1 table, its original name and that of the first db2 table with the same canonical name |
| Compare.SelfPairs | src/schema/compare.py:25-26 | one self-pair per name |
| Compare.NoCanonSelfPairs | src/schema/compare.py:24-26 | without a hook each name is paired with itself |
| Compare.IdenticalTableLists | tests/test_schema_compare.py:7-30 | two databases with the same duplicate-free tables have every table in `both`, paired with itself, and nothing on one side only; table lists are dict keys, so the names are always distinct |
| Compare.SelfPairsShape | src/schema/compare.py:25-26 | the self-pairs of duplicate-free names pair each name with itself and repeat no canonical name |
| Compare.SelfMatchedAll | src/schema/compare.py:31-48 | a duplicate-free self-paired list matches itself entirely and leaves nothing unmatched |
| Compare.SelfPairsAt | src/schema/compare.py:25-26 | the `i`-th self-pair is the `i`-th name twice |
| Compare.SelfMatched | src/schema/compare.py:31-39 | every prefix of a duplicate-free self-paired list matches itself in the whole list |
| Compare.OnlyOnOneSideExample | tests/test_schema_compare.py:32-55 | `table1`, `table2` against `table1`, `table3` gives `both` = table1, `only1` = table2 and `only2` = table3, each paired with itself |
| Compare.ExamplePairs | tests/test_schema_compare.py:32-47 | the test's two name lists, self-paired |
| Compare.ExampleSides | tests/test_schema_compare.py:48-55 | the matched and unmatched pairs of the test's lists |
| Compare.CaseInsensitiveExample | src/schema/compare.py:27-37 | with an upper-casing hook `Orders` and `ORDERS` are one table, and `both` keeps both spellings |
| Compare.DiffNames | src/schema/compare.py:51-66 | the loops of `diff_procedure_list` compute the name-list diff function |
| Compare.PresentMember | src/schema/compare.py:58-65 | a name is kept exactly when it is listed and its presence in the other list is as wanted |
| Compare.PresentSplits | src/schema/compare.py:58-62 | `both` and `only1` together hold every db1 name as often as it occurs |
| Compare.DiffProcedureList | src/schema/compare.py:51-66 | `both` and `only1` split the db1 list, `both` holds exactly the names in both, `only1` those only in db1 and `only2` those only in db2 |
| Compare.ScanForeignKey | src/schema/compare.py:82-86 | the constraint scan with `break` finds whether the table has a foreign key |
| Compare.AllDepsVisited | src/schema/compare.py:97-108 | the check with `break` is true exactly when every foreign key refers to a visited table or to the table itself |
| Compare.SeedOrder | src/schema/compare.py:80-91 | step 1 outputs the tables without a foreign key in input order, keeps the others in `nodelist` in input order, loses no table, and what it outputs has dependencies first |
| Compare.PassFrom | src/schema/compare.py:96-113 | a pass never lengthens `nodelist`, and a pass that removes nothing leaves `sorted`, `visited` and `nodelist` as they were; after a removal the entry that moves into the freed position is passed over |
| Compare.PassFromFacts | src/schema/compare.py:96-113 | a pass keeps `visited` equal to the names output, keeps dependencies first and the earlier output as a prefix, loses no table, and a pass that removes nothing saw no ready table |
| Compare.SortPass | src/schema/compare.py:96-113 | one pass computes `PassFrom` from position 0, including the entry the iterator passes over after each `remove`; it appends only tables whose foreign keys are met, keeps dependencies first and the earlier output as a prefix, loses no table, and when it appends nothing every remaining table is unmet |
| Compare.RemoveAt | src/schema/compare.py:113 | removing an entry takes exactly that entry out of the multiset |
| Compare.TopoSort | src/schema/compare.py:72-114 | the outcome is `SortOf(tables)`, step 1 followed by passes until `nodelist` is empty; the output puts each table after the tables its foreign keys refer to, starts with the tables without a foreign key in input order, and is a permutation of the input; a pass that makes no progress is reported with the unmet tables |
| Compare.PassSkipsNextEntry | src/schema/compare.py:96-113 | with one table output and two ready tables waiting, the first pass appends only the first of them, because the second moves into the freed position; the second pass appends it |
| Compare.SeedOfThree | src/schema/compare.py:81-91 | step 1 on a table without a foreign key followed by two with one outputs the first and leaves the other two waiting, in order |
| Compare.NameSetAppend | src/schema/compare.py:111-112 | recording an appended table adds exactly its name to `visited` |
| Compare.AppendReady | src/schema/compare.py:109-112 | appending a table whose foreign keys are met keeps dependencies first |
| Compare.SplitByForeignKey | src/schema/compare.py:81-91 | step 1 splits the input into two lists without losing or adding a table |
| Compare.NoForeignKeysKeepsAll | src/schema/compare.py:81-91 | with no foreign key anywhere step 1 keeps every table in input order |
| Compare.SortWithoutForeignKeys | src/schema/compare.py:72-114 | with no foreign key anywhere the sort returns the input unchanged |
| Compare.MissingReferenceNeverSorts | src/schema/compare.py:103-108 | a foreign key to a table that is neither listed nor the table itself can never be met by any order of the input |
| Compare.CycleNeverSorts | src/schema/compare.py:103-108 | two distinct uniquely named tables whose foreign keys refer to each other can never both be met |
| Compare.ParentBeforeChild | src/schema/compare.py:72-114 | a child listed before its parent is sorted after it |
| MySql.NewMySqlTable | src/dbdiff/schema/mysql.py:32-44 | a catalog table row gives a table of that name with no schema (so its full name is the bare name), no columns, constraints or indexes, and the row's row count, lengths, auto-increment and collation |
| MySql.NewMySqlColumn | src/dbdiff/schema/mysql.py:48-63 | a column is nullable exactly when `IS_NULLABLE` is `'YES'` and a key column exactly when `COLUMN_KEY` is `'PRI'`; name, type, table, default and position come from the row |
| MySql.ColumnEqFromRows | src/dbdiff/schema/mysql.py:48-63 | two catalog rows give equal columns exactly when they agree on name, type, table, default, position and on whether each flag equals `'YES'` / `'PRI'` |
| MySql.CreateColumnExample | tests/test_mysql_model.py:6-13 | the column the unit test builds has the test's table, name, type, no default, is not nullable and has position 1 |
| MySql.ColumnEqualsExample | tests/test_mysql_model.py:15-24 | two columns built from the same arguments are equal; `'YES'` against `''` makes them differ and the first nullable |
| MySql.DiffMapIs | src/schema/__init__.py:40-47 | the map of differing fields is determined field by field: a field is present exactly when the two values differ, and holds the left value |
| MySql.DiffNameExample | tests/test_mysql_model.py:45-51 | columns differing only in name differ only in `name` |
| MySql.DiffNamePositionExample | tests/test_mysql_model.py:53-59 | columns differing in name and position differ in exactly those two fields |
| MySql.DiffNullableDefaultExample | tests/test_mysql_model.py:61-69 | columns differing in nullability and default differ in exactly those two fields, with the test's values |
| MySql.NewMySqlConstraint | src/dbdiff/schema/mysql.py:65-73 | a catalog constraint row gives a constraint of that name, type and table with no columns and no reference; it is a primary key exactly for `'PRIMARY KEY'` and a foreign key exactly for `'FOREIGN KEY'` |
| MySql.NewMySqlIndex | src/dbdiff/schema/mysql.py:75-78 | a new index has the given name, table and uniqueness and no column descriptors |
| MySql.AddColumn | src/dbdiff/schema/mysql.py:80-82 | `add_column` appends exactly one descriptor with the given fields and changes nothing else of the index |
| MySql.AddColumnThenGet | src/dbdiff/schema/mysql.py:80-82 | after `add_column`, looking up a descriptor name finds the new descriptor exactly when no earlier descriptor had that name, and otherwise what it found before |
| MySql.IndexRowEffect | src/dbdiff/schema/mysql.py:260-275 | one index row changes only the index of its name: that index is found or created with `unique` set from `NON_UNIQUE == 0`, ends with the row's descriptor (nullable exactly for `'YES'`), every other name finds what it found before, and the rest of the table is unchanged |
| MySql.IndexRowKeepsNamesDistinct | src/dbdiff/schema/mysql.py:264-270 | find-or-create keeps index names distinct in a table |
| MySql.DescriptorsUpdate | src/dbdiff/schema/mysql.py:264-275 | replacing one index changes the descriptor count by the difference of that index's descriptors |
| MySql.DescriptorsAppend | src/dbdiff/schema/mysql.py:264-270 | appending an index adds its descriptors to the count |
| MySql.IndexRowAddsOne | src/dbdiff/schema/mysql.py:260-275 | every index row adds exactly one descriptor to its table |
| MySql.ImportAllStops | src/dbdiff/schema/mysql.py:241-284 | once a row of an import loop raises, the later rows change nothing: the result is that of the prefix that failed |
| MySql.ImportAllNext | src/dbdiff/schema/mysql.py:241-284 | a prefix that did not fail extends by exactly one step |
| MySql.ImportColumn | src/dbdiff/schema/mysql.py:241-246 | a column import step succeeds exactly when its table is stored, raises `ValueError(tablename)` otherwise, and keeps the stored names and their order |
| MySql.ImportIndexRow | src/dbdiff/schema/mysql.py:250-263 | an index-row step succeeds exactly when its table is stored, raises `ValueError(tablename)` otherwise, and keeps the stored names and their order |
| MySql.ImportConstraint | src/dbdiff/schema/mysql.py:279-284 | a constraint step succeeds exactly when the constraint has a stored table; otherwise it raises `ValueError('constraint <name> missing table <table>')`, or `TypeError` when the table is `None` |
| MySql.ImportAllKeys | src/dbdiff/schema/mysql.py:241-284 | an import loop keeps the set of stored table names and their order |
| MySql.ImportAllFails | src/dbdiff/schema/mysql.py:241-284 | a loop whose steps keep the stored names fails exactly when some row's step fails |
| MySql.ImportColumnsFails | src/dbdiff/schema/mysql.py:241-246 | the columns import fails exactly when some column names a table that is not stored |
| MySql.ImportConstraintsFails | src/dbdiff/schema/mysql.py:279-284 | the constraints import fails exactly when some constraint has no stored table |
| MySql.ImportIndexRowsFails | src/dbdiff/schema/mysql.py:250-263 | the index-rows import fails exactly when some row names a table that is not stored |
| MySql.ImportColumnsGroups | src/dbdiff/schema/mysql.py:241-246 | after a successful columns import every stored table has gained exactly its own columns, in input order, and nothing else changed |
| MySql.ImportConstraintsGroups | src/dbdiff/schema/mysql.py:279-284 | after a successful constraints import every stored table has gained exactly its own constraints, in input order, and nothing else changed |
| MySql.ImportIndexRowsCount | src/dbdiff/schema/mysql.py:250-275 | after a successful index-rows import every stored table has one more descriptor per row of its own and nothing changed but its indexes |
| MySql.SetKeepsValid | src/schema/__init__.py:325-332 | a stored table changed in place under its own name keeps the database well formed |
| MySql.ImportColumns | src/dbdiff/schema/mysql.py:240-246 | the columns loop leaves the database's tables and the raised error as the loop function says, and keeps its name and routines |
| MySql.ApplyIndexRow | src/dbdiff/schema/mysql.py:264-275 | the body of the index-rows loop computes the row's effect on the table |
| MySql.ImportIndexRows | src/dbdiff/schema/mysql.py:249-275 | the index-rows loop leaves the tables and the raised error as the loop function says, and keeps the name and routines |
| MySql.ImportConstraints | src/dbdiff/schema/mysql.py:278-284 | the constraints loop leaves the tables and the raised error as the loop function says, and keeps the name and routines |
| MySql.AddKeyColumn | src/dbdiff/schema/mysql.py:196-209 | one key-column row succeeds exactly when it has no referenced table, the constraint has none yet, or the two agree; the mismatch raises `ValueError` with the source's message; on success the column is appended, the reference recorded and the referenced column appended |
| MySql.KeyColumnStep | src/dbdiff/schema/mysql.py:185-209 | a row matching no constraint raises `ValueError('Missing Constraint <name>')`; a successful step keeps the number of constraints |
| MySql.KeyColumns | src/dbdiff/schema/mysql.py:185-209 | the key-column loop keeps the number of constraints |
| MySql.ExtendTwice | src/dbdiff/schema/mysql.py:205-209 | extending a referenced-column list twice is extending it by the concatenation |
| MySql.KeyColumnsErrSticks | src/dbdiff/schema/mysql.py:185-209 | once a row raises, the later rows change nothing |
| MySql.KeyColumnsKeepShape | src/dbdiff/schema/mysql.py:185-209 | the loop keeps each constraint in place with its table, name, type and schema |
| MySql.KeyColumnsSameTarget | src/dbdiff/schema/mysql.py:188-192 | the loop changes no constraint's table or name, so a row matches the same constraint throughout |
| MySql.KeyColumnsAllFound | src/dbdiff/schema/mysql.py:188-194 | when the loop succeeds, every row matched a constraint |
| MySql.RowsForNext | src/dbdiff/schema/mysql.py:185-192 | the rows sent to a constraint grow by the last row exactly when it matches that constraint |
| MySql.KeyColumnStepAt | src/dbdiff/schema/mysql.py:196-209 | a successful step changes only the matched constraint, as the one-row update says |
| MySql.KeyColumnsColumns | src/dbdiff/schema/mysql.py:185-197 | when the loop succeeds, each constraint has gained the column names of its rows, in row order |
| MySql.KeyColumnsReferencedColumns | src/dbdiff/schema/mysql.py:205-209 | when the loop succeeds, each constraint has gained the non-null referenced columns of its rows, in row order, the list being created only when there is one |
| MySql.KeyColumnsReferenceAgrees | src/dbdiff/schema/mysql.py:198-204 | when the loop succeeds, a row's non-null referenced table is the one its constraint ends with |
| MySql.KeyColumnsUnfold | src/dbdiff/schema/mysql.py:185-209 | a successful loop is a successful loop over all rows but the last, followed by one step |
| MySql.StepReference | src/dbdiff/schema/mysql.py:198-204 | a successful step records the row's referenced table at its constraint and keeps a reference already recorded |
| MySql.KeyColumnsReferenceKept | src/dbdiff/schema/mysql.py:198-204 | when the loop succeeds, a referenced table a constraint already had is kept |
| MySql.ReferenceMismatchRaises | src/dbdiff/schema/mysql.py:198-204 | two rows of one constraint with different non-null referenced tables make the loop raise |
| MySql.MissingConstraintRaises | src/dbdiff/schema/mysql.py:188-194 | a row that matches no constraint makes the loop raise |
| MySql.FindKeyTarget | src/dbdiff/schema/mysql.py:188-192 | the scan finds the first constraint of the row's table and name, or none |
| MySql.ApplyKeyColumn | src/dbdiff/schema/mysql.py:196-209 | the in-place updates of one row compute the one-row update |
| MySql.FetchConstraints | src/dbdiff/schema/mysql.py:159-210 | `fetch_constraints` builds one constraint per constraint row and then applies the key-column loop |
| MySql.TablesFrom | src/dbdiff/schema/mysql.py:115-125 | the tables `fetch_tables` registers are keyed by name and are exactly the names of the rows |
| MySql.ImportSchema | src/dbdiff/schema/mysql.py:231-284 | `import_schema` resets the database to the given name, registers the tables, then runs the columns, index-rows and constraints loops, stopping at the first error |
| Postgres.NewPostgresTable | src/dbdiff/schema/postgres.py:8-16 | a catalog table row gives a table of that name in its schema, so its full name is `schema.name`, with no columns, constraints or indexes and no row count |
| Postgres.NewPostgresColumn | src/dbdiff/schema/postgres.py:24-52 | a column is nullable exactly when `is_nullable` is `'YES'` and is never a key column at first; its type is `udt_name`, or `udt_name(length)` for `character varying`; name, table, schema, position and default come from the row |
| Postgres.VaryingTypeReadsBack | src/dbdiff/schema/postgres.py:39-40 | the `character varying` type reads back: the text before the first `(` is the type name and the digits between the parentheses are the maximum length |
| Postgres.VaryingLengthsDistinguish | src/dbdiff/schema/postgres.py:39-40 | two `character varying` columns from otherwise identical rows are equal exactly when their lengths are |
| Postgres.NewPostgresConstraint | src/dbdiff/schema/postgres.py:55-69 | a catalog constraint row gives a constraint of that name, type and table in the constraint schema, with no columns, no reference and no check clause; it is a primary key exactly for `'PRIMARY KEY'` and a foreign key exactly for `'FOREIGN KEY'` |
| Postgres.ConstraintIgnoresTableSchema | src/dbdiff/schema/postgres.py:57-62 | the row's table schema plays no part in the constraint |
| Postgres.ClauseField | src/dbdiff/schema/postgres.py:72-74 | the column of a check clause is the first part of the clause split on spaces: a prefix of the clause without a space |
| Postgres.AddCheckClause | src/dbdiff/schema/postgres.py:72-77 | `add_check_clause` records the clause and appends its column exactly when the constraint does not list it yet; nothing else changes |
| Postgres.CheckClauseListsField | src/dbdiff/schema/postgres.py:72-77 | afterwards the clause's column is listed, as often as before if it was listed, else once |
| Postgres.CheckClauseKeepsDistinct | src/dbdiff/schema/postgres.py:75-76 | a column list without repeats stays without repeats |
| Postgres.CheckClauseIdempotent | src/dbdiff/schema/postgres.py:72-77 | adding the same clause twice is adding it once |
| Postgres.NotNullClauseField | src/dbdiff/schema/postgres.py:71-74 | the clause `name IS NOT NULL` is about column `name` |
| Postgres.TwoClausesInOrder | src/dbdiff/schema/postgres.py:72-77 | two clauses on different columns list the columns in the order the clauses came |
| Postgres.GroomedContents | src/dbdiff/schema/postgres.py:132-141 | the groomed arguments have no `database` and no `schemalist`; `dbname` is present exactly when `dbname` or `database` was, keeping a given `dbname` over `database`; every other argument is unchanged |
| Postgres.GroomedIdempotent | src/dbdiff/schema/postgres.py:132-141 | grooming groomed arguments changes nothing |
| Postgres.GroomedSteps | src/dbdiff/schema/postgres.py:134-141 | the groomed arguments are what the three dictionary updates leave, in the source's order |
| Postgres.GroomConnectArgs | src/dbdiff/schema/postgres.py:132-141 | the in-place grooming of `connect` leaves exactly the groomed arguments |
| Postgres.PositionNames | src/dbdiff/schema/postgres.py:252-256 | the positions loop, when it succeeds, names one column per position |
| Postgres.PositionNamesOk | src/dbdiff/schema/postgres.py:252-256 | the loop succeeds exactly when every position has a column, and then each name is that of the first column at that position |
| Postgres.PositionNamesFirstMissing | src/dbdiff/schema/postgres.py:253-255 | the loop raises `ValueError('column not found:<p> in table <t>')` for the first position without a column |
| Postgres.PositionNamesNext | src/dbdiff/schema/postgres.py:252-256 | one more position with a column appends that column's name |
| Postgres.FoundCount | src/dbdiff/schema/postgres.py:252-256 | the number of leading positions that have a column: all before it have one and the next has none |
| Postgres.PositionNamesFails | src/dbdiff/schema/postgres.py:252-256 | the loop succeeds exactly when every position has a column, and otherwise fails at the first one without |
| Postgres.MarkKeyColumns | src/dbdiff/schema/postgres.py:301-306 | marking key columns keeps the number of columns |
| Postgres.MarkKeyColumnsOnlyFlags | src/dbdiff/schema/postgres.py:306 | marking changes no field of any column except its key flag |
| Postgres.MarkKeyColumnsMarks | src/dbdiff/schema/postgres.py:301-306 | afterwards the column found at every listed position is a key column, and every other column keeps its flag |
| Postgres.MarkKeepsLookup | src/dbdiff/schema/postgres.py:301-306 | marking changes no position, so each later lookup by position finds the same column |
| Postgres.MarkedByNext | src/dbdiff/schema/postgres.py:301-306 | one more position marks the column found there and no other |
| Postgres.MarkNext | src/dbdiff/schema/postgres.py:301-306 | marking one more position sets exactly the flag of the column found there |
| Postgres.MarkNothing | src/dbdiff/schema/postgres.py:301-306 | marking no position changes nothing |
| Postgres.PgcatConstraint | src/dbdiff/schema/postgres.py:292-296 | a fetcher's constraint is the one built from a constraint row with the fetched schema, the type, the table and its schema |
| Postgres.FindTable | src/schema/__init__.py:385-394 | `get_table(name, schema)` raises `ValueError('Invalid schema: <s>')` exactly when the schema is unknown and otherwise looks the name up in that schema |
| Postgres.ReplaceTable | src/dbdiff/schema/postgres.py:298-308 | updating a fetched table in place changes only that table of that schema |
| Postgres.ReplaceTableValid | src/dbdiff/schema/postgres.py:298-308 | replacing a stored table by one of the same name and schema keeps the schemas well formed |
| Postgres.KeyOn | src/dbdiff/schema/postgres.py:298-308 | a key row on a found table marks the columns of the leading positions that have one (for a primary key); it fails exactly when some position has no column, leaving the earlier marks; otherwise it appends the constraint with the positions' column names |
| Postgres.KeyStep | src/dbdiff/schema/postgres.py:286-309 | one key row keeps the set and order of schemas |
| Postgres.ForeignKeyStep | src/dbdiff/schema/postgres.py:232-270 | one foreign-key row keeps the set and order of schemas and, when it raises, changes nothing |
| Postgres.ForeignKeyOf | src/dbdiff/schema/postgres.py:241-267 | the foreign key built from a row has the row's name, table, reference table and schema, the mapped columns, and referenced columns `None` when there are none |
| Postgres.FetchAllNext | src/dbdiff/schema/postgres.py:232-270 | a fetcher prefix that did not raise extends by exactly one row step |
| Postgres.FetchAllStops | src/dbdiff/schema/postgres.py:232-270 | once a row raises, the later rows change nothing |
| Postgres.FetchAllEveryRow | src/dbdiff/schema/postgres.py:232-270 | a successful fetcher succeeded on every row, each applied to what the earlier rows left |
| Postgres.KeyStepValid | src/dbdiff/schema/postgres.py:298-308 | a key row keeps the schemas well formed |
| Postgres.ForeignKeyStepValid | src/dbdiff/schema/postgres.py:249-269 | a foreign-key row keeps the schemas well formed |
| Postgres.PrimaryKeyMarksAt | src/dbdiff/schema/postgres.py:301-306 | after a successful primary-key row, the column at each position is a key column and is the name the constraint lists there |
| Postgres.PrimaryKeyMarksNamed | src/dbdiff/schema/postgres.py:301-308 | after a successful primary-key row, every column the constraint lists is a key column of the table |
| Postgres.UniqueKeepsColumns | src/dbdiff/schema/postgres.py:337-346 | a unique-constraint row changes no column |
| Postgres.ForeignKeyResolves | src/dbdiff/schema/postgres.py:249-269 | a successful foreign-key row found the base and the referenced table and every position in each, and the appended constraint names those columns in position order |
| Postgres.ResolvePositions | src/dbdiff/schema/postgres.py:340-344 | the loop that only names columns computes the positions function |
| Postgres.ApplyKeyRow | src/dbdiff/schema/postgres.py:301-308 | the in-place body of the key fetchers' loop computes the one-row function |
| Postgres.KeyOnFails | src/dbdiff/schema/postgres.py:301-304 | a row whose `i`-th position is the first without a column raises for it, with the earlier columns already marked |
| Postgres.KeyOnSucceeds | src/dbdiff/schema/postgres.py:301-308 | a row whose every position has a column appends the constraint with those names |
| Postgres.MarkStep | src/dbdiff/schema/postgres.py:301-306 | one more position of the loop finds the same column on the partly marked table as on the original |
| Postgres.ApplyKeyRowTo | src/dbdiff/schema/postgres.py:298-308 | the body of the key fetchers' loop, given `get_table`'s result, computes the one-row step: an unknown schema or a missing table raises `ValueError` |
| Postgres.FetchKeyConstraints | src/dbdiff/schema/postgres.py:282-310 | a key fetcher applies its rows in turn to the stored tables, stopping at the first error, and counts one per row |
| Postgres.FetchPrimaryKeysPgcat | src/dbdiff/schema/postgres.py:273-310 | `fetch_primary_keys_pgcat` is the key fetcher of type `PRIMARY KEY` that marks key columns |
| Postgres.FetchUniqueConstraintsPgcat | src/dbdiff/schema/postgres.py:312-348 | `fetch_unique_constraints_pgcat` is the key fetcher of type `UNIQUE` that marks nothing |
| Postgres.ApplyForeignKeyRow | src/dbdiff/schema/postgres.py:233-270 | the in-place body of the foreign-key loop computes the one-row step |
| Postgres.FetchForeignKeysPgcat | src/dbdiff/schema/postgres.py:216-271 | `fetch_foreign_keys_pgcat` applies its rows in turn, stopping at the first error, and counts one per row |
| Postgres.FetchKeysPgcat | src/dbdiff/schema/postgres.py:350-353 | the primary-key then the unique fetcher, the first error ending the run, with the counts summed |
| Postgres.FetchConstraintsPgcat | src/dbdiff/schema/postgres.py:350-355 | `fetch_constraints_pgcat` runs the three fetchers in order, the first error ending the run, and returns the sum of their counts |
| TableDiff.Names | src/datacompare/tablediff.py:21-27 | the key column names are the names of the key columns, in order |
| TableDiff.KeyValues | src/datacompare/tablediff.py:26-29 | the key values exist exactly when the row has every key column, and then are the row's values for the key columns in key order |
| TableDiff.KeyValuesFirstMissing | src/datacompare/tablediff.py:26-29 | the `KeyError` names the first key column, in key order, that the row lacks |
| TableDiff.RowKeyOf | src/datacompare/tablediff.py:18-31 | a row has a key exactly when it has every key column |
| TableDiff.RowKeyValue | src/datacompare/tablediff.py:18-31 | a one-column key is the bare value, any other key the tuple of the key values in key order, and a missing column raises the `KeyError` of the first one missing |
| TableDiff.SameKeyIffSameKeyColumns | src/datacompare/tablediff.py:18-31 | two rows with every key column get the same key exactly when they agree on every key column |
| TableDiff.EmptyKey | src/datacompare/tablediff.py:24-31 | with no key column every row has the empty tuple as key |
| TableDiff.GetRowKey | src/datacompare/tablediff.py:18-31 | the loop of `get_row_key` computes the row key function |
| TableDiff.CopyColumns | src/datacompare/tablediff.py:46-47 | the canonicalized key list copies each key column, in order |
| TableDiff.PrepDiff | src/datacompare/tablediff.py:33-51 | `prep_diff` raises `db1: table not found` / `db2: table not found` for a missing table; otherwise it succeeds exactly when the key column lists are equal, or, with a canonicalizer, equal once copied through it, and returns db1's key columns; the two mismatch messages are the source's |
| TableDiff.CanonOnlyRelaxes | src/datacompare/tablediff.py:44-51 | a canonicalizer only lets more tables through: what passes without it passes with it, with the same result |
| TableDiff.BuildIndex | src/datacompare/tablediff.py:76-79 | the index of rows2 is a well formed dictionary |
| TableDiff.JoinStep | src/datacompare/tablediff.py:84-94 | one row of rows1 keeps the remaining dictionary well formed |
| TableDiff.JoinRows | src/datacompare/tablediff.py:83-94 | the rows1 loop keeps the remaining dictionary well formed |
| TableDiff.DiffRows | src/datacompare/tablediff.py:69-102 | the three loops of `diff_rows` compute the row diff function; on success `sames`, `diffs` and `only1` are, in input order, the rows of db1 that the placement rule sends to each against the index of db2 |
| TableDiff.IndexRows | src/datacompare/tablediff.py:76-79 | the first loop builds the index function |
| TableDiff.MatchRows | src/datacompare/tablediff.py:83-94 | the second loop computes the join function; on success `sames`, `diffs` and `only1` are, in input order, the rows that the placement rule sends to each against the index it started from |
| TableDiff.RemainingRows | src/datacompare/tablediff.py:98-101 | the third loop lists the rows left in the dictionary, in key insertion order |
| TableDiff.BuildIndexErrSticks | src/datacompare/tablediff.py:77-79 | once a row of rows2 raises, the whole first loop raises with it |
| TableDiff.JoinRowsErrSticks | src/datacompare/tablediff.py:83-84 | once a row of rows1 raises, the whole second loop raises with it |
| TableDiff.BuildIndexOk | src/datacompare/tablediff.py:77-79 | the first loop raises exactly when some row of rows2 lacks a key column |
| TableDiff.JoinRowsOk | src/datacompare/tablediff.py:83-84 | the second loop raises exactly when some row of rows1 lacks a key column |
| TableDiff.AllRowsSnoc | src/datacompare/tablediff.py:77-84 | all rows have the key columns exactly when all but the last do and the last does |
| TableDiff.JoinCovers | src/datacompare/tablediff.py:83-94 | every row of rows1 lands in exactly one of `sames`, `diffs` and `only1`, and each match deletes exactly one key |
| TableDiff.JoinStepFacts | src/datacompare/tablediff.py:84-94 | a row whose key is absent is appended to `only1`; one whose key is present is appended to `sames` when it equals the stored row and to `diffs` otherwise; the other lists are unchanged, and exactly its key leaves the dictionary |
| TableDiff.JoinPlaces | src/datacompare/tablediff.py:83-94 | after the whole loop, `sames`, `diffs` and `only1` are the rows that the placement rule (`PlaceOf`: key in the index and held by no earlier row, then equal to the stored row or not; otherwise `only1`) sends to each, in input order |
| TableDiff.JoinStepPlaces | src/datacompare/tablediff.py:84-94 | with the index left as the earlier rows leave it, one step appends the row to exactly the list the placement rule names |
| TableDiff.PlacedMember | src/datacompare/tablediff.py:83-94 | a row is in a list exactly when some position holds it and the placement rule sends that position to the list |
| TableDiff.RowDiffPlaces | src/datacompare/tablediff.py:69-94 | the `sames`, `diffs` and `only1` of `diff_rows` are the rows of db1 that the placement rule sends to each against the index built from db2 |
| TableDiff.JoinRemaining | src/datacompare/tablediff.py:83-94 | a key is left in the dictionary exactly when it was there at first and no row of rows1 has it, with the stored row unchanged |
| TableDiff.NoRowHasKeySnoc | src/datacompare/tablediff.py:83-84 | no row has the key exactly when no row of the prefix has it and the last row does not |
| TableDiff.JoinRemainingNext | src/datacompare/tablediff.py:83-94 | the remaining-key property extends from all rows but the last to all rows |
| TableDiff.JoinRowsRemainingStep | src/datacompare/tablediff.py:85-94 | one more row of rows1 deletes its key from what is left |
| TableDiff.DuplicateGoesToOnly1 | src/datacompare/tablediff.py:85-94 | a row of rows1 whose key an earlier row already matched goes to `only1`, because the earlier match deleted the key |
| TableDiff.BuildIndexStep | src/datacompare/tablediff.py:77-79 | the index of a list is that of all rows but the last, with the last stored under its key |
| TableDiff.BuildIndexStepMap | src/datacompare/tablediff.py:77-79 | the same step stated on the dictionary's entries |
| TableDiff.BuildIndexHas | src/datacompare/tablediff.py:77-79 | a key is in the index exactly when some row of rows2 has it |
| TableDiff.BuildIndexKeyFrom | src/datacompare/tablediff.py:77-79 | every key of the index is the key of some row |
| TableDiff.BuildIndexKeeps | src/datacompare/tablediff.py:77-79 | the key of every row is in the index |
| TableDiff.BuildIndexLast | src/datacompare/tablediff.py:77-79 | each key holds the last row of rows2 with that key: no later row has it |
| TableDiff.NoLaterKeyExtends | src/datacompare/tablediff.py:77-79 | "no later row has the key" extends from a prefix to one more row |
| TableDiff.BuildIndexDistinct | src/datacompare/tablediff.py:77-79 | with distinct keys in rows2 the index has one entry per row |
| TableDiff.RowDiffCounts | src/datacompare/tablediff.py:69-102 | the rows of db1 split into `sames`, `diffs` and `only1`; with distinct keys in db2, the rows of db2 split into the matched ones and `only2` |
| TableDiff.RowDiffOk | src/datacompare/tablediff.py:77-84 | `diff_rows` raises exactly when some fetched row lacks a key column |
| TableDiff.Only2Member | src/datacompare/tablediff.py:98-101 | `only2` holds exactly the rows of db2 that are the last of their key and whose key no row of db1 has |
| TableDiff.DiffTableRows | src/datacompare/tablediff.py:62-102 | `diff_rows` raises what `prep_diff` raises, and otherwise returns the row diff of the fetched rows on db1's key columns |
| Queries.RowsQuery | src/dbdiff/schema/mysql.py:92-97 | the row query starts with `SELECT * FROM ` and the table name, and is exactly that with no filter and no order |
| Queries.CountQuery | src/dbdiff/schema/mysql.py:105-108 | the count query starts with `SELECT COUNT(*) FROM ` and the table name, and is exactly that with no filter |
| Queries.OrderComesLast | src/dbdiff/schema/postgres.py:149-154 | an order only adds ` ORDER BY o` at the very end |
| Queries.CountMatchesRows | src/dbdiff/schema/postgres.py:149-165 | without an order, the row query and the count query differ only in what they select |
| Queries.WhereFollowsTable | src/dbdiff/schema/postgres.py:150-152 | a filter appears as given right after ` WHERE `, which follows the table name |
| LegacyTableDiff.Names | datacompare/tablediff.py:16-29 | the key column names are the names of the key columns, in order |
| LegacyTableDiff.PrepDiff | datacompare/tablediff.py:31-49 | the older `prep_diff` looks one name up in both databases, raises for a missing table, and succeeds exactly when the key column lists are equal, returning db1's |
| LegacyTableDiff.DiffTableRows | datacompare/tablediff.py:51-90 | the older `diff_rows` raises what `prep_diff` raises, and otherwise is the same row diff as the newer one |
| LegacyTableDiff.ProjectedEqual | schema/__init__.py:1-60 | columns projected to the older schema are equal exactly when the newer columns are equal |
| LegacyTableDiff.PrepDiffAgrees | datacompare/tablediff.py:31-43 | the older `prep_diff` agrees with the newer one for one name and no canonicalizer: the same errors and the projected key columns |
| LegacySchema.ColumnEqIsIdentity | schema/__init__.py:19-32 | the older `Column.__eq__` compares every attribute, so it is plain equality of the column values |
| LegacySchema.Lift | schema/__init__.py:8-17 | an older column read as a newer one has no schema and the same name and table name |
| LegacySchema.FieldsExtend | schema/__init__.py:9-17 | the newer attribute list is the older one with `schema` appended |
| LegacySchema.Diff | schema/__init__.py:34-47 | `diff` raises `TypeError` for another class and returns `(False, None, None)` for equal columns; otherwise both maps hold exactly the attributes whose values differ, each with its own side's value |
| LegacySchema.DiffNotEmpty | schema/__init__.py:37-47 | two unequal columns of one class differ in at least one reported attribute |
| LegacySchema.NewTable | schema/__init__.py:121-131 | the older `Table` keeps name and rows, drops the schema argument and starts with no columns, constraints or indexes |
| LegacySchema.PrimaryKeyColumns | schema/__init__.py:153-155 | the key columns are exactly the columns whose flag is set, no more than there are columns |
| LegacySchema.DiffColumns | schema/__init__.py:157-177 | every column of the first table lands in exactly one of same / notsame / only1 by exact name; same holds exactly the columns equal to the first like-named one, only1 exactly those without one, and only2 the columns of the second table whose name no column of the first has |
| LegacySchema.DiffIndexes | schema/__init__.py:179-199 | the same partition over indexes |
| LegacySchema.DiffConstraints | schema/__init__.py:201-221 | the same partition over constraints, with notsame holding exactly the constraints whose like-named one differs |
| LegacySchema.FromColumn | schema/__init__.py:8-17 | the projection of a newer column lifts back to that column without its schema |
| LegacySchema.FromTable | schema/__init__.py:121-131 | the projection of a newer table keeps its name and projects its columns |
| LegacySchema.ColumnEqAgrees | schema/__init__.py:19-32 | column equality is the same relation in both models |
| LegacySchema.IndexEqAgrees | schema/__init__.py:64-73 | index equality is the same relation in both models |
| LegacySchema.ConstraintEqWeaker | schema/__init__.py:107-118 | constraints equal in the newer model are equal in the older one, and the two agree when their schemas and reference schemas agree |
| LegacySchema.ConstraintEqConverseFails | schema/__init__.py:107-118 | two constraints that differ only in schema are equal in the older model and not in the newer one |
| LegacySchema.DiffColumnsAgree | schema/__init__.py:157-177 | the older `diff_columns` is the newer one without a canonicalizer, with the columns projected |
| LegacySchema.DiffIndexesAgree | schema/__init__.py:179-199 | the older `diff_indexes` is the newer one without a canonicalizer, with the indexes projected |
| LegacySchema.DiffConstraintsAgree | schema/__init__.py:201-221 | the older `diff_constraints` is the newer one without a canonicalizer when no constraint has a schema or a reference schema |
| LegacySchema.PrimaryKeyColumnsAgree | schema/__init__.py:153-155 | the key columns of projected columns are the projected key columns |
| LegacyCompare.DiffTableList | schema/compare.py:15-30 | every db1 name goes to `both` or `only1` in db1 order; `both` holds exactly the names in both lists, `only1` those only in db1 and `only2` those only in db2 |
| LegacyCompare.SwapSwapsOnly | schema/compare.py:15-30 | swapping the databases swaps `only1` and `only2` and keeps the names both have |
| LegacyCompare.SelfPairsLookup | src/schema/compare.py:24-26 | a name looked up among self-paired names finds its own pair exactly when it is listed |
| LegacyCompare.SelfPairsAppend | src/schema/compare.py:25-26 | self-pairing distributes over appending |
| LegacyCompare.MatchedSelf | src/schema/compare.py:31-48 | matching self-paired lists by canonical name is matching the names by membership |
| LegacyCompare.TableListAgrees | schema/compare.py:15-30 | the newer `diff_table_list` without a canonicalizer is the older result with each name paired with itself |
| Credentials.ParseLine | src/util/database_credentials.py:9-18 | a line contributes nothing exactly when it strips to empty or to a comment; it raises the unpacking `ValueError` exactly when it is neither and has no `=` |
| Credentials.ParseLineAssigns | src/util/database_credentials.py:16-18 | an assignment line is split at its first `=`, and the key and the value it yields are those two parts stripped |
| Credentials.SplitAssignment | src/util/database_credentials.py:16 | splitting off the first `=` of `key=value`, with no `=` in the key, gives back the key and the value |
| Credentials.ParseStripped | src/util/database_credentials.py:9-18 | a line that strips to `a=b`, with no `=` in `a` and not a comment, assigns the stripped `b` to the stripped `a` |
| Credentials.ParseFormatted | src/util/database_credentials.py:9-18 | a well-formed `key=value` line reads back as that key and value, whatever `=` the value holds |
| Credentials.ParseSpaced | src/util/database_credentials.py:9-18 | whitespace around the key, the `=` and the value does not change what a line assigns |
| Credentials.StripPadded | src/util/database_credentials.py:9 | stripping removes exactly the whitespace added at the two ends of a stripped string |
| Credentials.LeadingSpacePadded | src/util/database_credentials.py:9 | the leading whitespace of padding followed by a non-space is exactly the padding |
| Credentials.TrailingSpacePadded | src/util/database_credentials.py:9 | the trailing whitespace of a non-space followed by padding is exactly the padding |
| Credentials.ReadAll | src/util/database_credentials.py:5-20 | the credentials read so far are a well formed dictionary |
| Credentials.Step | src/util/database_credentials.py:9-19 | one more line keeps the dictionary well formed |
| Credentials.ReadCredentials | src/util/database_credentials.py:5-20 | the loop of `read_credentials_file` computes the reading function |
| Credentials.ReadAllStops | src/util/database_credentials.py:8-16 | once a prefix of the file raises, the whole file raises the same error |
| Credentials.ReadAllLookup | src/util/database_credentials.py:19 | each key read holds the value of the last line assigning it, and only assigned keys are read |
| Credentials.FailingLineFails | src/util/database_credentials.py:16 | a line with no `=` makes the whole file fail |
| Credentials.ReadAllErrInit | src/util/database_credentials.py:8-16 | reading fails once the lines before the last fail |
| Credentials.ReadAllErrLast | src/util/database_credentials.py:16 | reading fails when the last line has no `=` |
| Credentials.FailureHasLine | src/util/database_credentials.py:16 | a file that fails holds a line with no `=` and fails with the unpacking error |
| Credentials.ReadAllFails | src/util/database_credentials.py:8-19 | a file fails exactly when one of its lines is an assignment without `=`, and then with the unpacking error |
| Credentials.IgnoredLineChangesNothing | src/util/database_credentials.py:10-15 | a blank or comment line, wherever it stands, changes nothing |
| Credentials.ReadAllSnocSame | src/util/database_credentials.py:8-19 | files that read the same go on reading the same after one more line |
| Credentials.ReadAllIgnoredStep | src/util/database_credentials.py:10-15 | a final blank or comment line changes nothing |
| Credentials.AssignmentPuts | src/util/database_credentials.py:16-19 | one more well-formed assignment line sets its key, a new key going to the end |
| Credentials.AssignmentLines | tests/test_credential_files.py:4-9 | a file of one assignment line per key, in order |
| Credentials.DistinctAssignments | src/util/database_credentials.py:5-20 | well-formed assignments to distinct keys read as exactly those keys in file order, each holding its value |
| Credentials.AssignmentLinesSnoc | tests/test_credential_files.py:4-9 | the assignment lines of one more key are the earlier ones plus its line |
| Credentials.FreshAssignment | src/util/database_credentials.py:16-19 | an assignment to a new key extends the result by that key and keeps every earlier value |
| Credentials.PutFresh | src/util/database_credentials.py:19 | putting a new key appends it and keeps every earlier entry |
| Credentials.TestFileReads | tests/test_credential_files.py:4-9 | a file assigning `host`, `user`, `password` and `database` reads as those four keys with the test's values |

## Left out

- Database I/O: `connect`, `cursor`, query execution and fetching, the SQL text of the catalog queries, and the `psycopg`, `mysql.connector` and `make_conninfo` calls. Catalog and data rows are parameters of the model, given as typed records. Only the processing after the fetch is modelled, together with the argument grooming `connect` does before connecting.
- src/dbdiff/schema/__init__.py is not part of this model. The adapters and the row diff import their entities from it, and they are modelled over the entities of src/schema/__init__.py.
- The command line and the reports (`main.py`, `src/maindata.py`, `maindata.py`, `datacompare/dbscan.py`): click commands, printing, the deduplication of the report lists and the table lookup of the data report. `str_upper` and `str_lower` are kept only as the canonicalizers `Text.Upper` and `Text.Lower`.
- Opening and reading the credentials file: the file is given as its sequence of lines.
- Python object mechanics: `copy.deepcopy`, the reflective `__dict__` walk in `diff` (an explicit attribute list instead), the `**dbrow` keyword expansion and its `TypeError` for an unexpected catalog field, and `None` for fields typed as strings (`Option` is used only where the source tests for `None`).
- Aliasing: the adapters change table objects that are shared with the database's dictionary. The model stores the updated table value back under its key, which gives the same final dictionary.
- Python value equality and hashing of row values (for example `1 == True` and `1 == 1.0`): row values are compared by Dafny equality.
- MySqlDatabase.fetch_tables registers each table through `add_table` and then returns an empty list, so the loop over its result in `import_schema` (src/dbdiff/schema/mysql.py:235-237) does nothing. The model keeps only the registration.
- MySqlDatabase.import_schema replaces `routines` with the list of fetched routine rows (src/dbdiff/schema/mysql.py:286-287). That list is never read by the modelled code. `fetch_routines` is catalog I/O, so the model leaves the routines empty.
- The Postgres `fetch_tables`, `fetch_columns`, `fetch_indexes` (with `PostgresIndex`), `fetch_constraints_infoschema`, `fetch_routines` (with `PostgresRoutine`) and `import_schema`. Each runs a query and hands the rows to the constructors and containers modelled here. The model covers the constructors, the check-clause handling, the pg_catalog fetchers and the containers, but not these fetch functions themselves.
- The older top-level `Index.get_column`, `Index.diff_columns`, the `Table` getters and the `Database` stubs of schema/__init__.py: they are the same code as the newer ones, and the newer members model them. The stubs return nothing.
- Text.Upper, Text.Lower: the case mapping covers the ASCII letters only. Python's `str.upper()` and `str.lower()` also map non-ASCII letters (`"é"` to `"É"`) and can change the length (`"ß".upper()` is `"SS"`), so for names with non-ASCII letters the case-insensitive comparison can pair tables differently from the program.
- Schema.Diff, LegacySchema.Diff: the `TypeError` message is `<class 'MySQLColumn'>` and the like, naming the class without the module path that `str(type(col))` includes (for example `dbdiff.schema.mysql.`), which depends on how the package is imported.
- Databases.ResolveTableName: the unpacking error for a name with two or more dots carries the message of Python 3.11 and earlier; Python 3.12 and later append the number of values found.
- Schema.PrimaryKeyColumns: its own contract is only a length bound. Which columns it keeps, and in what order, is stated by `Schema.PrimaryKeyColumnsMembers` and `Schema.PrimaryKeyColumnsAppend`.
- Compare.TopoSort: the source loops forever when a pass appends no table (a reference cycle between distinct tables, or a foreign key to a table that is not in the input). The model returns the outcome `Stuck` with the tables still pending.
- Compare.TopoSort: `nodelist.remove(table)` is modelled as removing the entry being visited. Tables have no `__eq__`, so `remove` finds the object by identity, which is that entry.
- Credentials.ParseSpaced: stated for a non-empty key and value without surrounding whitespace of their own.
- Credentials.TestFileReads: tests/test1.env.txt is not part of this model. Its contents are taken to be four `key=value` lines for the four keys the test reads.
- Postgres.FetchConstraintsPgcat: the count after a failure is not stated, because the source raises and its count is then never returned.

## Findings

| source | as written | input that shows it | evidently intended | confidence | as-written member | corrected member |
|---|---|---|---|---|---|---|
| src/schema/__init__.py:304 | with a canonicalizer, a constraint that still differs from its like-named partner after canonicalization is passed to `notsame(con)`, which calls the list and raises `TypeError: 'list' object is not callable` | two foreign keys named `fk` on table `orders`, one on column `a` and one on column `b`, compared with any canonicalizer | `notsame.append(con)`, recording the constraint as changed, as `diff_columns` and `diff_indexes` do | not executed | Schema.DiffConstraintsAsWritten, Schema.NotSameCallRaises | Schema.DiffConstraints |
