# Workflow connector: a verified model

The connector answers REST requests from a SQL database. A descriptor file names the
tables, their columns and their relationships; the connector turns the rows of a
`LEFT JOIN` into nested JSON records, turns request maps into parameterised statements
for five SQL dialects, and keeps a registry of open transactions. This project models
those three parts in Dafny and proves what they do, and where they fall short, for all
inputs.

| file | models |
|---|---|
| `Values.dfy` | dynamic values and records |
| `Descriptor.dfy` | the descriptor, its sanity checks and look-ups |
| `Decode.dfy` | column labels, scan cells, decoding of rows |
| `Deduplicate.dfy` | collecting related rows in place |
| `Join.dfy` | tables, the nested LEFT JOIN, and its decoding |
| `Strings.dfy` | `stringify` |
| `Formatting.dfy`, `FormattingProperties.dfy` | building workflow records |
| `RelatedRecords.dfy` | one relationship along the rows of a join |
| `FinalRecords.dfy` | the final records |
| `ToOneFields.dfy` | what their to-one fields show |
| `Collections.dfy` | to-many fields of single resources and of ordered collections |
| `Endpoints.dfy` | the read endpoints end to end |
| `Options.dfy` | the options routes end to end |
| `CoffeeExample.dfy` | concrete cases after the shipped descriptor |
| `QueryBuilder.dfy` | columns, arguments, placeholders and their binding |
| `OracleDates.dfy` | Go layouts, Oracle format models and the dates between them |
| `Transactions.dfy`, `Backend.dfy` | the registry as a state machine, and its methods |

Code that loops and updates is modelled by methods with loops, proved equal to
specification functions; the main results are lemmas about those functions, for every
descriptor, database, order of rows and interleaving of calls.

## What turns out not to hold

Each of these is the behaviour of the code, with its exact condition.

- The records of a collection share one growing list per to-many relationship, so a
  record also lists the related rows of the records before it. In a collection ordered by
  id, the last record of a row shows exactly the row's own matches if and only if every
  selected row from the first one with a match through this one has its local value
  (`CollectionShowsOwn`; `CollectionListsForeignRecords` is a concrete case). The
  repository's own expectations for `GET /equipment` contain such lists.
- A to-one field looks its record up by text. As long as text tells the related rows
  apart, it always shows the row's own related record if and only if the last plain field
  of the related type that is written under the key looked up (the foreign column, or the
  unique id column when normalised) reads the foreign column, as neither money nor a date
  (`AlwaysShownExactly`). Of the shipped descriptor, `inventory` has no such field: its id
  is written under `name`. So no ingredient is ever shown with its inventory
  (`StockNeverShown`, `StockDropped`).
- For a related type with such a field and a table with unique keys, matched rows always
  show their own record if and only if whatever reads like a row's key, another row's key
  or a blank record's, is shown like the row (`AlwaysShownOfExactly`). Ids that are printed
  with `%f` can differ and read alike: a record can be shown with another's related record
  (`WrongRecord`, `FloatIdsConfused`).
- A normalised list holds the ids of its rows if and only if the last field written under
  the unique id column's name reads that column (`NormalizedShowsIds`); without a field
  that writes the name every element is null (`NormalizedNulls`).
- A single resource is returned as one object if and only if every relationship
  matches at most once; otherwise the response is an array with one element per joined
  row, of which the last is complete (`SingleShape`, `LastRecordComplete`; concretely
  `OneIsAnArray`).
- A to-one field without a related record has three forms, by what came before in the
  collection: an empty list until some row has matched, then no key at all, or a blank
  record (null, when normalised) if the foreign key itself is NULL (`ToOneShowsOwnRecord`).
- A requested date that is not text makes a request panic instead of being answered with
  a 400, if and only if no field before it has an ill-formed date (`RequestEnds`; concretely
  `PurchaseDatePanics`).
- A statement executed within a transaction commits it at once, so a later commit
  of the same transaction cannot succeed (`NoSuccessAfterEnd`).
- An execute call can report success although its statement is lost: it is in the
  database if and only if the transaction was ended by a commit
  (`ExecutedIsDurableIffCommitted`, `SuccessCanBeLost`).
- The log says that a timed-out transaction is deleted from the registry. The timer
  deletes under the UUID, the registry is keyed by its text, and the entry stays for
  good, so that commits of it fail instead of answering 404 (`TimedOutLingers`,
  `DeadTransactionFails`).
- Statements whose arguments would not line up with their columns (both keys of a money
  field, or a date of unknown kind, in one request) are refused by the database for
  their number of arguments; they never bind a wrong value (`ExcessLinesUp`, `BindOwn`;
  concretely `BothKeysOfMoney`).
- On Oracle, a field of the type named `datetime` is coerced as a timestamp but not
  wrapped as one (`WrapperFitsCoercion`, `DatetimeIsBare`), and a time of day can never be
  written: its format model names fractional seconds, which `to_date` does not accept
  (`OracleReadsWhatIsBound`, `TimeOfDayRefused`).
- On Oracle a collection can be filtered by at most one column, and options by none beside
  the text: the templates call format functions that are not configured for these routes
  (`OracleFilters`).

## Model

| member | source | states |
|---|---|---|
| Descriptor.SanityChecksAccept | internal/pkg/descriptor/descriptor.go:105-188 | a descriptor file is accepted exactly when no type descriptor violates any of the five rules |
| Descriptor.GetTypeDescriptorUsingDBTableName | internal/pkg/util/util.go:86-93 | the scan returns the last descriptor of the table, or none exactly when there is none |
| Descriptor.TypeDescriptorRelationships | internal/pkg/util/util.go:157-165 | the relationship fields, in descriptor order |
| Decode.LabelSplits | internal/pkg/sql/db.go:195-198 | a `table NUL column` label splits back into its parts, whatever the column name holds |
| Decode.PrependTableNameToColumns | internal/pkg/sql/sqlBackend.go:272-281 | labels every column of one table |
| Decode.PrependTableNameToColumnsInJoinedTables | internal/pkg/sql/sqlBackend.go:285-314 | with enough columns the running indices stay in bounds and every column is labelled once, in place, with the table that owns it |
| Decode.Scan | internal/pkg/sql/db.go:187-190 | a row is scanned exactly when every value converts for its cell, whatever `database/sql` converts; each cell then holds nil for NULL, the time for a time, and otherwise the converted value; one handed over twice that of its last column |
| Decode.SharingInvisible | internal/pkg/sql/db.go:186-207 | sharing a cell between columns is invisible if and only if the sharing columns scan to equal values |
| Decode.ProcessRow | internal/pkg/sql/db.go:186-207 | the loop over columns with its running table map computes the nested map of the scanned values |
| Decode.LastRunWins | internal/pkg/sql/db.go:194-205 | for any label sequence a table's map comes from the last maximal run of its labels, last write to a column winning |
| Decode.DecodedCell | internal/pkg/sql/db.go:186-207 | with distinct labels, a value stands under its own table and column if and only if its table does not come again after another one |
| Decode.RowsToResults | internal/pkg/sql/db.go:171-287 | although all rows use the same cells, each result holds the values of its own row only: under each table and column what the row's value is converted to, nil for NULL; one bad row or an iteration error fails the query |
| Deduplicate.AppendNoDuplicates | internal/pkg/util/util.go:167-179 | appends unless an equal record is present |
| Deduplicate.AnyNonEmpty | internal/pkg/sql/db.go:219-230 | whether some value is neither nil nor an empty string |
| Deduplicate.CollectRow | internal/pkg/sql/db.go:215-234 | what one joined row does to the list and to the sticky flag |
| Deduplicate.AttachPass | internal/pkg/sql/db.go:211-239 | the pass for one field attaches to row i the list collected from rows 0 to i |
| Deduplicate.DeduplicateSingleResource | internal/pkg/sql/db.go:209-241 | in place, the passes of all relationship fields one after the other |
| Deduplicate.CollectedMembers | internal/pkg/sql/db.go:212-238 | a list is free of duplicates and holds exactly the parts from the first one with content on |
| Deduplicate.CollectedPrefix | internal/pkg/sql/db.go:212-238 | earlier lists are prefixes of later ones |
| Deduplicate.DeduplicatedList | internal/pkg/sql/db.go:209-241 | after all passes each relationship's list is that of the original rows, so fields do not interfere |
| Deduplicate.DeduplicatedFrame | internal/pkg/sql/db.go:209-241 | no other table's part changes, and the base record gains the relationship keys only |
| Deduplicate.DeduplicatedColumn | internal/pkg/sql/db.go:209-241 | no other column of the base record changes |
| Deduplicate.DeduplicatedTwice | internal/pkg/sql/db.go:209-241 | a second run changes nothing |
| Join.JoinMembers | internal/pkg/sql/postgres/postgres.go:20-27 | the nested LEFT JOIN holds exactly the combinations of a base row with one match, or none if there is none, per relationship |
| Join.FanOut | internal/pkg/sql/postgres/postgres.go:20-27 | one base row gives one joined row exactly when every relationship matches at most once |
| Join.DecodeFlatRow | internal/pkg/sql/db.go:186-207 | decoding a joined row puts every cell back under its own table and column, whatever names the tables share |
| Join.RefsOfJoin | internal/pkg/sql/sqlBackend.go:245-267 | all rows of a join have the same tables and columns, matched or not |
| Join.LabelsNameOwners | internal/pkg/sql/sqlBackend.go:245-267 | the labels stored for a join name the owner of every column of the joined row |
| Strings.StringifyTwice | internal/pkg/formatting/jsonForWorkflowAccelerator.go:389-410 | stringify is idempotent at any nesting depth |
| Strings.DecimalWrites | internal/pkg/formatting/jsonForWorkflowAccelerator.go:394-395 | a text is the one printed for an integer exactly when it reads as that integer and has no leading zero |
| Strings.StringifyIsText | internal/pkg/formatting/jsonForWorkflowAccelerator.go:389-410 | what stringify returns is the text of a value and nothing else is: an integer as its decimal digits without a leading zero, after a minus sign below zero, text itself, floats and times as printed, maps cell by cell, and null for anything else |
| Strings.IdsAreText | internal/pkg/formatting/jsonForWorkflowAccelerator.go:385-387 | on ids of one type, comparing stringified values is comparing ids |
| Formatting.FormatAsAWorkflowType | internal/pkg/formatting/jsonForWorkflowAccelerator.go:150-162 | terminates on every set of descriptors and writes each relationship field, then each other field, in order; the record shows of each plain field that is the last to write its key what its row's cells ask for |
| Formatting.BuildWithoutRelationships | internal/pkg/formatting/jsonForWorkflowAccelerator.go:179-210 | each remaining field writes its one key: option name and id as text under `name` and `id`, money as amount and currency (of the column, the descriptor, or EUR), a datetime in UTC, a date or time as it is, text as text, any other cell unchanged, and null for NULL |
| Formatting.BuildField | internal/pkg/formatting/jsonForWorkflowAccelerator.go:187-210 | one field, dispatched by its column and type; only a date that is neither a time nor NULL is excluded |
| Formatting.BuildForFieldTypeMoney | internal/pkg/formatting/jsonForWorkflowAccelerator.go:290-366 | null exactly without amount and currency, else both, the currency from its column, the descriptor, or EUR |
| Formatting.BuildAndRecursivelyResolveRelationships | internal/pkg/formatting/jsonForWorkflowAccelerator.go:164-177 | writes an empty list for an empty collection, else resolves by kind |
| Formatting.ResolveOneToManyRelationship | internal/pkg/formatting/jsonForWorkflowAccelerator.go:212-228 | writes the full records, or their ids, for a non-empty collection |
| Formatting.ResolveOneToOneOrManyToOneRelationship | internal/pkg/formatting/jsonForWorkflowAccelerator.go:230-260 | writes the last record whose id reads like the local value, or leaves the key alone |
| Formatting.DenormalizeResultSet | internal/pkg/formatting/jsonForWorkflowAccelerator.go:262-273 | the embedded form of every related row |
| Formatting.NormalizeResultSet | internal/pkg/formatting/jsonForWorkflowAccelerator.go:275-288 | of every embedded record, its value under the unique id column |
| Formatting.WithRelationshipFieldsOmitted | internal/pkg/formatting/jsonForWorkflowAccelerator.go:437-448 | the fields of a table that are no relationships |
| Formatting.SegregateFields | internal/pkg/formatting/jsonForWorkflowAccelerator.go:374-383 | splits the fields in two, keeping their order |
| FormattingProperties.WellKeyedHasOneWriter | internal/pkg/descriptor/descriptor.go:105-148 | in a sane descriptor with distinct keys and source columns every output key has one writer |
| FormattingProperties.FormattedAt | internal/pkg/formatting/jsonForWorkflowAccelerator.go:150-162 | with one writer per key, a record holds exactly each field's own value, and shows of each plain field what its row's cells ask for |
| FormattingProperties.FieldOrderIrrelevant | internal/pkg/formatting/jsonForWorkflowAccelerator.go:150-162 | listing the fields in another order formats the same record |
| FormattingProperties.EmbeddedHasNoRelationships | internal/pkg/formatting/jsonForWorkflowAccelerator.go:262-273 | an embedded record shows none of its own relationships |
| FormattingProperties.EmbeddedAt | internal/pkg/formatting/jsonForWorkflowAccelerator.go:262-273 | an embedded record has a key exactly when some plain field writes it, with the value of the last such field |
| FormattingProperties.EmbeddedShows | internal/pkg/formatting/jsonForWorkflowAccelerator.go:262-273 | an embedded record shows its row's plain fields in the same way |
| FormattingProperties.EmbeddedId | internal/pkg/formatting/jsonForWorkflowAccelerator.go:187-196 | whatever the unique id column is called, its stringified value stands under `id`, and that of the option name under `name` |
| FormattingProperties.IdentifiesExactly | internal/pkg/formatting/jsonForWorkflowAccelerator.go:230-260 | what embedded records have under a key reads like a column in every row if and only if the last field written there reads that column, as neither money nor a date |
| FormattingProperties.NormalizedShowsIds | internal/pkg/formatting/jsonForWorkflowAccelerator.go:275-288 | a normalised list holds the stringified ids of its rows, whatever the rows, if and only if the last field written under the unique id column's name reads it |
| FormattingProperties.NormalizedNulls | internal/pkg/formatting/jsonForWorkflowAccelerator.go:275-288 | without a field that writes that name, every element is null |
| FormattingProperties.NormalizedIsProjection | internal/pkg/formatting/jsonForWorkflowAccelerator.go:212-288 | the normalised field is the projection of the denormalised one on the unique id column, and present exactly when that is, as long as both look-ups of a to-one field read the same in every record |
| FormattingProperties.RelationshipAt | internal/pkg/formatting/jsonForWorkflowAccelerator.go:150-162 | with a key of its own, a relationship's value stands in the record whatever the plain fields write among themselves |
| RelatedRecords.ListedMembers | internal/pkg/sql/db.go:209-241 | the list of row i holds every contribution from the first match to row i, once |
| RelatedRecords.ListIsOwnExactly | internal/pkg/sql/db.go:209-241 | a list holds exactly the row's own matches if and only if no other local value occurs from the first match on, and all own matches were delivered |
| RelatedRecords.OnlyOwnInGroups | internal/pkg/sql/db.go:209-241 | when rows come in groups, no other local value occurs from the first match to a row if and only if none occurs among the groups |
| RelatedRecords.DataParts | internal/pkg/sql/db.go:213-216 | the decoded rows hold, for a relationship, each row's match or the blank record |
| FinalRecords.FinalRelationship | internal/pkg/formatting/jsonForWorkflowAccelerator.go:150-177 | a relationship's key in the final record depends on the row's local value and its list alone |
| FinalRecords.FinalPlain | internal/pkg/formatting/jsonForWorkflowAccelerator.go:150-210 | a final record shows each plain field of the joined base row that is the last to write its key, unless a relationship's key is one of its columns |
| ToOneFields.ToOneShowsOwnRecord | internal/pkg/formatting/jsonForWorkflowAccelerator.go:230-260 | for ids of any type and any foreign and unique columns whose look-up key identifies rows: in every row of every collection a to-one field shows the row's own related record, although its list holds others, if what reads like its key is shown alike; and exactly what it shows without one |
| ToOneFields.AlwaysShownExactly | internal/pkg/formatting/jsonForWorkflowAccelerator.go:230-260 | over all databases of which text tells the related rows apart, matched rows always show their related record if and only if the last plain field written under the look-up key reads the foreign column, as neither money nor a date |
| ToOneFields.AlwaysShownOfExactly | internal/pkg/formatting/jsonForWorkflowAccelerator.go:385-387 | given unique keys and an identifying look-up key: over one related table, matched rows of all collections show their own record if and only if whatever reads like a row's key is shown like the row |
| ToOneFields.WrongRecord | internal/pkg/formatting/jsonForWorkflowAccelerator.go:230-260 | of three rows of a join, the last is shown with the record of the second, whose key reads like its own |
| ToOneFields.TypedIdColumn | internal/pkg/formatting/jsonForWorkflowAccelerator.go:385-410 | unique integers, or unique non-empty texts, are told apart by their text |
| ToOneFields.NeverShown | internal/pkg/formatting/jsonForWorkflowAccelerator.go:230-260 | without a field that writes the look-up key, every matched row loses the field |
| ToOneFields.ForeignKeyResolved | internal/pkg/formatting/jsonForWorkflowAccelerator.go:230-260 | a foreign key that exists in the related table is resolved to that row, if text tells the rows apart |
| Collections.ToManyShowsList | internal/pkg/formatting/jsonForWorkflowAccelerator.go:212-228 | a to-many field shows its list, in full or as ids |
| Collections.ShowsOwnExactly | internal/pkg/formatting/jsonForWorkflowAccelerator.go:212-228 | where ids are shown, the elements shown are the row's own related records if and only if the list is, and none twice |
| Collections.FanOutUndone | internal/pkg/sql/db.go:209-241 | for one base row, any number of relationships and any order of the product rows, the last list is free of duplicates, holds exactly the matching rows, and is empty exactly when none match |
| Collections.LastHasAll | internal/pkg/sql/postgres/postgres.go:32-44 | by the last row of a base record a join has delivered all its matches, in whatever order |
| Collections.LastRecordComplete | internal/app/backend/getSingle.go:15-99 | in the last record of a single resource a to-many field shows exactly the matching rows |
| Collections.LastRecordIds | internal/pkg/formatting/jsonForWorkflowAccelerator.go:275-288 | normalised, that is exactly the set of the stringified ids of the matching rows |
| Collections.CollectionShowsOwn | internal/pkg/sql/postgres/postgres.go:32-44 | in a collection ordered by id, the last record of a selected row shows exactly its own matches, each once, if and only if every selected row from the first one with a match through this one has its local value |
| Endpoints.StandardFormat | internal/pkg/formatting/jsonForWorkflowAccelerator.go:34-75 | nothing, one object, or an array, by the number of rows |
| Endpoints.CollectionFormat | internal/pkg/formatting/jsonForWorkflowAccelerator.go:77-105 | always an array, one record per row |
| Endpoints.QueryContextForNonOptionRoutes | internal/pkg/sql/db.go:75-110 | scanning, decoding and collecting in sequence, or an error |
| Endpoints.JoinLabels | internal/pkg/sql/sqlBackend.go:245-267 | the labels computed for a join split into exactly the table and column of every cell of all its rows |
| Endpoints.DeliveredDecodes | internal/pkg/sql/db.go:171-207 | with those labels the delivered rows decode to the joined rows |
| Endpoints.ResultsFormattable | internal/pkg/formatting/jsonForWorkflowAccelerator.go:150-372 | with typed columns none of the formatter's type assertions panics on a queried row |
| Endpoints.GetCollection | internal/app/backend/getCollection.go:16-95 | from the delivered cells to one final record per joined row, as the database determines it; an error exactly when the query or a scan fails |
| Endpoints.GetSingle | internal/app/backend/getSingle.go:15-99 | an error exactly when the query or a scan fails; else 404, one object or an array, by the number of final records |
| Endpoints.SingleShape | internal/app/backend/getSingle.go:15-99 | 404 exactly without a selected row; else one object if and only if every relationship matches at most once, and otherwise an array |
| CoffeeExample.CollectionListsForeignRecords | internal/pkg/sql/db.go:209-241 | two pieces of equipment with a recipe each: the second is not shown with its own recipe alone |
| CoffeeExample.RecipeShowsItsEquipment | internal/pkg/formatting/jsonForWorkflowAccelerator.go:230-260 | in a collection of recipes the second one shows its own equipment |
| CoffeeExample.StockNeverShown | config/descriptor.json:74-150 | no ingredient of any database is shown with its inventory |
| CoffeeExample.StockDropped | config/descriptor.json:74-150 | one ingredient in stock, whose record lacks its inventory |
| CoffeeExample.OneIsAnArray | internal/app/backend/getSingle.go:15-99 | one piece of equipment used in two recipes is answered with an array |
| CoffeeExample.FloatIdsConfused | internal/pkg/formatting/jsonForWorkflowAccelerator.go:389-410 | two sizes with unique ids that print alike: some record that has one is shown with the other |
| Options.ColumnNamesAndDataTypesForOptionRoutes | internal/pkg/sql/sqlBackend.go:376-390 | the option columns get the schema's own cells, or a nil target for a column it lacks |
| Options.CellOf | internal/pkg/sql/sqlBackend.go:376-389 | a label has a cell if and only if the schema has the column, and it is the last one of that name |
| Options.SharedCellSameColumn | internal/pkg/sql/sqlBackend.go:376-390 | with a cell per schema column, only one and the same column gets the same cell twice |
| Options.OptionRowDecodes | internal/pkg/sql/db.go:112-127 | an option decodes to its row's own id and name, also when they share a cell |
| Options.QueryContextForOptionRoutes | internal/pkg/sql/db.go:112-127 | the id and name of every row as they are converted, or an error exactly when the query fails or a row cannot be scanned |
| Options.GetCollectionAsOptions | internal/app/backend/getCollectionAsOptions.go:15-101 | the options offered are those of the first 42 rows, in order: the texts of what their id and name are converted to, so of the id and name themselves when `database/sql` keeps values of the column's kind |
| Options.GetSingleAsOption | internal/app/backend/getSingleAsOption.go:15-91 | the text of the one row's own id and name, in the same sense; 404 without a row, an error for more than one |
| QueryBuilder.GetColumnNamesFromRequestData | internal/app/backend/createSingle.go:122-142 | the columns of the requested entries, in field order |
| QueryBuilder.CoerceRequestDataToGolangNativeTypes | internal/pkg/query/query.go:91-151 | all arguments in field order, or how the first unsuccessful coercion ends: an error or a panic |
| QueryBuilder.CoerceField | internal/pkg/sql/sqlBackend.go:27-61 | a field ends a request exactly when the coercion for its date's type and kind does |
| QueryBuilder.ArgsExactly | internal/pkg/query/query.go:94-149 | the first coercion that does not succeed decides whether a request is refused or panics |
| QueryBuilder.RequestEnds | internal/pkg/sql/sqlBackend.go:27-61 | a request panics exactly when its first bad date is no text, and is refused exactly when that is text in another format |
| QueryBuilder.PurchaseDatePanics | internal/pkg/sql/sqlBackend.go:27-42 | a purchase date that is a number makes the request panic |
| QueryBuilder.ExcessColumns | internal/pkg/query/query.go:94-149 | columns minus arguments is the number of money fields with both keys plus requested dates of unknown kind |
| QueryBuilder.ExcessLinesUp | internal/pkg/query/query.go:94-149 | columns and arguments line up if and only if no money field is requested with both keys and no date of unknown kind at all |
| QueryBuilder.ArgumentsAreOwn | internal/pkg/query/query.go:94-149 | if they do, there is one pair for each requested field, in order: its column with its entry unchanged, for a date with the coercion of its entry, for money with the amount's or the currency's own entry |
| QueryBuilder.EntryColumnIsDeclared | internal/pkg/util/util.go:114-137 | with unambiguous keys a requested value is written to the column declared for its key |
| QueryBuilder.ColumnSlotsShape | internal/pkg/sql/postgres/postgres.go:52-68 | head and tail rendering lists the columns in order with the dialect's own placeholders, `?` or 1 to n |
| QueryBuilder.BindOwn | internal/pkg/query/query.go:22-90 | between pairs fixed by a handler a statement binds exactly those pairs, and is refused if and only if columns and arguments do not line up |
| QueryBuilder.UpdateSingle | internal/app/backend/updateSingle.go:16-110 | in every dialect, with that dialect's placeholders, an executed update writes each requested field's own pair and selects by the id; 400 exactly without requested fields or on a refused coercion, and a panic exactly on a panicking one |
| QueryBuilder.CreateSingle | internal/app/backend/createSingle.go:15-120 | the same for an insert |
| QueryBuilder.GetCollection | internal/app/backend/getCollection.go:16-95 | each filter compares its column with its own value, in every dialect and with its placeholders; on Oracle the template fails exactly when a filter after the first calls a format function |
| QueryBuilder.GetCollectionAsOptions | internal/app/backend/getCollectionAsOptions.go:15-101 | the filter is argument 1 and every further column binds its own value, in every dialect and with its placeholders; on Oracle the template fails exactly when a column calls a format function |
| QueryBuilder.OracleFilters | internal/pkg/sql/oracle/oracle.go:58-77 | if columns and arguments line up, the template fails exactly with more than one filter of a collection, or any column of an options query |
| QueryBuilder.OracleOptions | internal/pkg/sql/oracle/oracle.go:71-77 | with distinct columns, an options template fails exactly when anything is requested but dates of unknown kind |
| QueryBuilder.WrapperFitsCoercion | internal/pkg/query/query.go:39-73 | Oracle's wrapper fits the coercion of a column if and only if its field is not of type name `datetime` |
| OracleDates.ReadsBack | internal/pkg/sql/oracle/oracle.go:164-220 | whatever the tokens of a date format, what is written with them is read back with them |
| OracleDates.LayoutTexts | internal/pkg/sql/oracle/oracle.go:24-28 | the reference time written with the three Go layouts is the layouts' own text |
| OracleDates.DatetimesAgree | internal/pkg/sql/oracle/oracle.go:138-147 | the Go layout and the Oracle format model of timestamps mean the same tokens |
| OracleDates.TimesAgree | internal/pkg/sql/oracle/oracle.go:155-161 | so do those of times |
| OracleDates.ConvertsBack | internal/pkg/sql/oracle/oracle.go:138-163 | text in a layout is converted back with an agreeing format model if and only if the function accepts the model |
| QueryBuilder.OracleReadsWhatIsBound | internal/pkg/sql/oracle/oracle.go:138-220 | the text bound to a date column is read back by the wrapper around its placeholder if and only if it is no time of day: a datetime as the moment parsed from the request, element by element, a date as the midnight of its day |
| QueryBuilder.BaseBindsMoment | internal/pkg/sql/sqlBackend.go:27-42 | on the other backends that parse dates, the pair of a date is its column and the moment parsed from its entry |
| QueryBuilder.TimeOfDayRefused | internal/pkg/sql/oracle/oracle.go:155-161 | a time of day, in whatever form, is an error |
| QueryBuilder.DatetimeIsBare | internal/pkg/query/query.go:39-73 | a field of the type named `datetime` is bound as text without a wrapper |
| QueryBuilder.BothKeysOfMoney | internal/pkg/query/query.go:94-149 | updating both parts of a price executes nothing |
| QueryBuilder.ColumnSlotsWrapped | internal/pkg/sql/oracle/oracle.go:77-99 | every placeholder of an Oracle update or insert has the wrapper of its column's coercion |
| Transactions.RunInv | internal/pkg/sql/db.go:129-169 | the invariant on registry, calls and database holds throughout every run |
| Transactions.ExpireEnds | internal/pkg/sql/db.go:129-157 | a deadline rolls an open transaction back, whatever it has run, and changes nothing else |
| Transactions.EndingEnds | internal/pkg/sql/db.go:129-169 | after its deadline, a commit call's attempt, or an execute call's success, a transaction is over, with its statements published exactly if it was committed |
| Transactions.CommitDecides | internal/pkg/sql/db.go:159-169 | a commit succeeds exactly on an open transaction that the driver commits, and then publishes what it ran; no other transaction is affected |
| Transactions.CanGoOn | internal/pkg/sql/db.go:25-169 | no call is ever stuck but an execute call on an unregistered transaction, and every registered transaction can time out |
| Transactions.GoesOn | internal/pkg/sql/db.go:25-169 | every call is answered after at most three library calls of its own |
| Transactions.OneTerminalEvent | internal/pkg/sql/db.go:129-169 | a transaction ends at most once and does not change afterwards |
| Transactions.OpenIsOwned | internal/pkg/sql/db.go:25-61 | an open transaction is registered under its text id or owned by a call in progress |
| Transactions.AtMostOneSuccess | internal/pkg/sql/db.go:159-169 | among all commit calls on an id at most one succeeds |
| Transactions.NoSuccessAfterEnd | internal/pkg/sql/db.go:129-169 | after the deadline, commit attempt or execute success of a transaction, no call that had not committed it by then ever answers that it has |
| Transactions.NotFoundAfterSuccess | internal/pkg/sql/db.go:159-169 | a call that looks up an id after a successful commit answers 404 |
| Transactions.DeadTransactionLingers | internal/pkg/sql/db.go:144-155 | a transaction ended in any other way stays registered for good |
| Transactions.TimedOutLingers | internal/pkg/sql/db.go:144-155 | a registered transaction that runs into its deadline stays registered, rolled back, for good |
| Transactions.DeadTransactionFails | internal/pkg/sql/db.go:159-169 | and a commit call on it finds it and fails |
| Transactions.AllOrNothing | internal/pkg/sql/db.go:45-55 | a transaction contributes nothing, or exactly the statements that succeeded on it, in order |
| Transactions.NothingRunsAfterEnd | internal/pkg/sql/db.go:45-55 | no statement succeeds on a transaction after its end |
| Transactions.ExecutedIsDurableIffCommitted | internal/pkg/sql/db.go:45-55 | a statement reported as executed is in the database if and only if its transaction was committed |
| Transactions.SuccessCanBeLost | internal/pkg/sql/db.go:45-55 | a run in which a reported success is lost to a timeout |
| Backend.SqlBackend.LoadTx | internal/pkg/sql/sqlBackend.go:392-394 | look-up by key |
| Backend.SqlBackend.StoreTx | internal/pkg/sql/sqlBackend.go:396-399 | adds or replaces one entry |
| Backend.SqlBackend.DeleteTx | internal/pkg/sql/sqlBackend.go:401-404 | removes one entry |
| Backend.SqlBackend.CreateTx | internal/pkg/sql/db.go:129-157 | one solo run of the machine: a fresh open transaction, registered under its text id, or nothing if it cannot begin |
| Backend.SqlBackend.CommitTx | internal/pkg/sql/db.go:159-169 | one solo run: 404 exactly for an unknown id, success exactly for an open transaction the driver commits, whose statements are then added to the database in order and which is removed from the registry |
| Backend.SqlBackend.ExecInTransaction | internal/pkg/sql/db.go:45-55 | one solo run: success exactly if the statement succeeds on the open transaction, which is then committed, with the statement, if the driver manages to, or else rolled back |
| Backend.SqlBackend.ExecImplicit | internal/pkg/sql/db.go:27-61 | one solo run: the statement takes effect on the pool exactly if it succeeds, the registry is untouched |

## Left out

- Deduplicate.DeduplicateSingleResource: the outer slice is updated in place, the nested maps are values, so two names for one inner map are not modelled; relationships back to the base table, where that would show, are excluded.
- Deduplicate.AttachPass: relationships back to the base table are excluded, for the same reason.
- Decode.Scan: which conversions `database/sql` makes is a parameter; a join is over values as they are scanned.
- Decode.PrependTableNameToColumnsInJoinedTables: running out of columns is a precondition, because the source panics there.
- Deduplicate.AppendNoDuplicates: `reflect.DeepEqual` is equality of values; NaN and the inner parts of a time are not modelled.
- Formatting.FormatAsAWorkflowType: panicking type assertions are preconditions; `ResultsFormattable` shows that typed columns meet them.
- ToOneFields.AlwaysShownExactly: a date field that reads an identifier panics in the source; here it counts as not shown.
- Collections.FanOutUndone: every row of a related table has some non-empty value; one without any cannot be told from a join without a match.
- Collections.CollectionShowsOwn: for templates that order by id; Oracle's and SQL Server's leave the order of rows to the database, where `ListIsOwnExactly` still applies.
- Endpoints.GetCollection: relationship keys are not column names, and every column has a scan cell of its own, as the schema mappings are built.
- FormattingProperties.WellKeyedHasOneWriter: a sufficient condition on descriptors, not a necessary one.
- QueryBuilder.GetCollectionAsOptions: whether a template that calls an unconfigured format function ends in a 400 or in a panic depends on the version of Go, and is one outcome here.
- QueryBuilder.BindOwn: that the database refuses a wrong number of arguments is assumed of `database/sql` and the drivers.
- QueryBuilder.OracleReadsWhatIsBound: assumes of Oracle that a point is the radix character, and that a format model for a DATE with fractional seconds or an offset is an error (Oracle Database SQL Language Reference, "Datetime Format Models"); moments have years of four digits and milliseconds.
- Transactions.AllOrNothing: for the base backend; PostgreSQL's own `execContext` runs the statement on the pool instead of the transaction. A commit that the driver fails is taken to leave the database unchanged, a failed statement to have no effect.
- Backend.SqlBackend.ExecInTransaction: an unregistered id is a precondition, because the source assumes it and panics.
- Requests that share the scan cells of one schema at the same time: one request is modelled.
- Uniqueness of UUIDs is assumed: a transaction's UUID and handle are one fresh number.
- Printing of floats and times in responses and parsing of dates in requests: abstract functions the results hold for.
- HTTP routing, authentication, configuration loading, logging and JSON encoding.
- SQL text: quoting, aliases, RETURNING; templates are modelled as columns with placeholders. Oracle's template for collections does not close the quote after the first filter's column, and has a blank inside the quotes of a join's local column; both are beyond the model.
- DELETE, which takes an id and nothing else.
- Type-name tables of the drivers.
