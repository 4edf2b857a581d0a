# Hyrax FileSet lifecycle and works-count rows, in Dafny

This project models two pieces of Hyrax, the Rails repository platform for
digital works:

- `Hyrax::Actors::FileSetActor`, which gives a new FileSet its label and
  title, ingests its content, stamps its metadata, attaches it to a parent
  Work (appending it to the Work's ordered `member_ids` and filling a blank
  representative and thumbnail), reverts its content, and destroys it after
  clearing the Work's references to it;
- `Hyrax::WorksCountService#search_results_with_work_count`, which turns a
  search result into the five-column rows of a DataTables response sorted by
  the requested column.

Layout:

- `wrappers.dfy` (`Wrappers`): `Option` for Ruby's nil, `Result` for a raised error.
- `ruby_text.dfy` (`RubyText`): `blank?`/`present?`, `File.basename` and the
  path of a URI, the library behaviour the label rule depends on.
- `ruby_integer.dfy` (`RubyInteger`): `Kernel#Integer` on a string, which
  reads the sort column.
- `file_set_rules.dfy` (`FileSetRules`): the actor's decisions as functions
  on values: `LabelFor` (`label_for`), `AssignVisibility`
  (`assign_visibility?`), `Attach` and `Unlink` on a `WorkRecord`, and the
  lemmas about them.
- `file_set_actor.dfy` (`FileSetActors`): classes `Work`, `FileSet` and
  `FileSetActor`, whose methods update the objects in place as the Ruby
  methods do. Each method's postcondition ties the new state to the
  functions of `FileSetRules`. Saves, jobs and callbacks are not performed
  but appended, in order, to the actor's event `log`. The answers of the
  store and of the collaborators are parameters: whether a save succeeded,
  what a reload returns, whether a revert succeeded, and the current time.
- `works_count_service.dfy` (`WorksCount`): row construction, Ruby's `<=>` on
  the cells, the in-place sort, and the whole service method.

Facts about the code that the model keeps as written:

- `attach_to_work` appends the FileSet id to `member_ids` without
  de-duplicating (file_set_actor.rb:82). `FileSetRules.AttachAppends` proves
  that attaching an id that is already a member adds a second occurrence.
- `label_for` takes the label of an `UploadedFile` whose uploader has no
  filename from the path of its `file_url` (file_set_actor.rb:142).
- The `after_create_fileset` callback runs inside the locked block of
  `attach_to_work` (file_set_actor.rb:88).
- The doc comment of `create_content` promises false on failure
  (file_set_actor.rb:20), but a failed save returns nil through the bare
  `return unless saved_file` (file_set_actor.rb:29). The model returns
  `None`.

## Model

| member | source | states |
|---|---|---|
| `RubyText.Basename` | app/actors/hyrax/actors/file_set_actor.rb:142-149 | `File.basename`: trailing slashes are dropped, the last component is kept, an all-slash path gives "/" and an empty path ""; its meaning is pinned by `RubyText.BasenameShape` and `RubyText.BasenameOfJoin` |
| `RubyText.BasenameShape` | app/actors/hyrax/actors/file_set_actor.rb:149 | `File.basename` yields one path component (no '/', or the root "/") and is empty only for an empty path |
| `RubyText.BasenameOfJoin` | app/actors/hyrax/actors/file_set_actor.rb:149 | the basename of `dir + "/" + name` is `name` |
| `RubyText.UriPath` | app/actors/hyrax/actors/file_set_actor.rb:142 | the path taken from a URL holds no query and no fragment |
| `RubyText.UriPathOfHttpsUrl` | app/actors/hyrax/actors/file_set_actor.rb:147 | the path of `https://host/path`, with or without `?query`, is `/path` |
| `RubyText.UriPathOfAbsolutePath` | app/actors/hyrax/actors/file_set_actor.rb:142 | the path of a scheme-less absolute path such as `/uploads/a.pdf`, with or without `?query`, is that path |
| `FileSetRules.LabelFor` | app/actors/hyrax/actors/file_set_actor.rb:140-151 | the uploader filename when present, else the original name for a named stream; every fallback (file URL, import URL, file path) yields a single path component |
| `FileSetRules.LabelIgnoresImportUrlUnlessLocal` | app/actors/hyrax/actors/file_set_actor.rb:141-145 | an uploaded file or named stream is labelled without regard to the FileSet's `import_url` |
| `FileSetRules.LocalFileLabelPriority` | app/actors/hyrax/actors/file_set_actor.rb:145-149 | for a plain file a present `import_url` wins over the file's path; without one the label is the file name |
| `FileSetRules.UploadedFileUrlFallback` | app/actors/hyrax/actors/file_set_actor.rb:142 | an uploaded file with no uploader filename is labelled with the file name at the end of its URL's path, for an https URL and for a bare absolute path (`/uploads/x/a.pdf`), with any directory (also none) and with or without a query |
| `FileSetRules.AssignVisibility` | app/actors/hyrax/actors/file_set_actor.rb:153-155 | true exactly when the parameters are not nil and have a `visibility`, `embargo_release_date` or `lease_expiration_date` key |
| `FileSetRules.AttachAppends` | app/actors/hyrax/actors/file_set_actor.rb:82 | attach keeps the old members in place and adds the FileSet id once at the end, also when it is already a member |
| `FileSetRules.AttachFillsOnlyBlankRefs` | app/actors/hyrax/actors/file_set_actor.rb:83-84 | representative and thumbnail each become the FileSet exactly when blank, independently; a set value is never overwritten |
| `FileSetRules.AttachTwice` | app/actors/hyrax/actors/file_set_actor.rb:82-84 | two attaches in turn give members `old + [a, b]`, and the first FileSet keeps the slots it filled |
| `FileSetRules.AttachKeepsRefsMembers` | app/actors/hyrax/actors/file_set_actor.rb:82-84 | attach keeps representative and thumbnail pointing at members |
| `FileSetRules.Attach` | app/actors/hyrax/actors/file_set_actor.rb:82-84 | attach leaves the Work's visibility alone |
| `FileSetRules.Unlink` | app/actors/hyrax/actors/file_set_actor.rb:162-163 | unlink leaves the member list and visibility alone |
| `FileSetRules.UnlinkClearsOnlyMatching` | app/actors/hyrax/actors/file_set_actor.rb:159-163 | for a FileSet with an id, after unlink neither reference is the FileSet, a reference to another FileSet stays, and a Work that does not point at the FileSet is unchanged |
| `FileSetRules.UnlinkKeepsRefsMembers` | app/actors/hyrax/actors/file_set_actor.rb:162-163 | unlink keeps representative and thumbnail pointing at members |
| `FileSetRules.AttachTwoThenUnlinkFirst` | app/actors/hyrax/actors/file_set_actor.rb:77-165 | two FileSets attached in turn to a Work without representative and thumbnail, then the first unlinked: both stay members in order and the Work is left with neither a representative nor a thumbnail |
| `FileSetRules.UnlinkUndoesAttachRefs` | app/actors/hyrax/actors/file_set_actor.rb:157-165 | unlinking a FileSet that filled both slots of a Work leaves both nil again; the member list keeps it |
| `FileSetActors.FileSetActor.DefaultLabelAndTitle` | app/actors/hyrax/actors/file_set_actor.rb:23-24 | a nil label becomes `label_for(file)` and an existing one is kept; an empty title becomes `[label]` and a non-empty one is kept; nothing else changes |
| `FileSetActors.FileSetActor.CreateContent` | app/actors/hyrax/actors/file_set_actor.rb:21-44 | label and title defaults, then a title that is never empty; a failed save returns nil with nothing logged; from a URL: save, in-process ingest, visibility copy and permission jobs for the parent; otherwise save and one ingest job |
| `FileSetActors.FileSetActor.UpdateContent` | app/actors/hyrax/actors/file_set_actor.rb:50-52 | one ingest job with notification is enqueued and returned |
| `FileSetActors.FileSetActor.CreateMetadata` | app/actors/hyrax/actors/file_set_actor.rb:62-73 | depositor and sole creator are the user, both dates are the same `now`, the create actor runs exactly when visibility was given explicitly, and visibility is untouched unless it runs, in which case it is what the actor applied |
| `FileSetActors.FileSetActor.AttachToWork` | app/actors/hyrax/actors/file_set_actor.rb:77-90 | the Work (reloaded when persisted) becomes `Attach(work, id)`; the FileSet takes the Work's visibility exactly when none was given; then the Work save and the callback, in that order; the Work is the FileSet's parent afterwards |
| `FileSetActors.FileSetActor.RevertContent` | app/actors/hyrax/actors/file_set_actor.rb:97-101 | returns the revert's answer and runs the callback only on success |
| `FileSetActors.FileSetActor.UnlinkFromWork` | app/actors/hyrax/actors/file_set_actor.rb:157-165 | no parent, or a parent that does not point at the FileSet: nothing changes and nothing is saved; otherwise the parent becomes `Unlink(parent, id)` and is saved, and a failed save raises |
| `FileSetActors.FileSetActor.Destroy` | app/actors/hyrax/actors/file_set_actor.rb:108-112 | the parent's save (if any) comes before the FileSet's removal, which comes before the after-destroy callback with the FileSet's id; a raising save stops before removal |
| `RubyInteger.ParseInteger` | app/services/hyrax/works_count_service.rb:16 | `Integer(text)`: surrounding white space, an optional sign, a 0x/0b/0o/0d prefix or a leading-zero octal, and underscores between digits; any other text is `None` (Ruby raises); its inverse is pinned by `RubyInteger.ParseShowRoundTrip` |
| `RubyInteger.ParseShowRoundTrip` | app/services/hyrax/works_count_service.rb:16 | `Integer(n.to_s) == n` for every integer, negative ones included |
| `WorksCount.SortColumn` | app/services/hyrax/works_count_service.rb:16 | a missing order raises; otherwise the column is `Integer` of the column text, and a nil or non-integer text raises |
| `WorksCount.MakeRow` | app/services/hyrax/works_count_service.rb:19-22 | the row of one document: its title array, creation date, the work count 0, its type and its visibility, in that order; `WorksCount.ColumnsHaveOneKind` and `WorksCount.RowsOfPermutation` state what every such row shares |
| `WorksCount.Rows` | app/services/hyrax/works_count_service.rb:17-22 | one row per document, in document order, as the loop appends them to `results` |
| `WorksCount.CellLe` | app/services/hyrax/works_count_service.rb:25 | `x <=> y` is not positive: integers by value, strings by `WorksCount.StrLe`, title arrays by `WorksCount.StringsLe`; its order laws are `WorksCount.CellLeTotal` and `WorksCount.CellLeTransitive` |
| `WorksCount.InOrder` | app/services/hyrax/works_count_service.rb:24-28 | the comparison block of the sort: `a[column] <=> b[column]` for "asc", `b[column] <=> a[column]` otherwise, with Ruby's indexing; `WorksCount.InOrderIsTotalPreorder` shows both are total preorders |
| `WorksCount.StringsLeTotal` | app/services/hyrax/works_count_service.rb:25 | any two title arrays are comparable under `Array#<=>` |
| `WorksCount.StringsLeTransitive` | app/services/hyrax/works_count_service.rb:25 | `Array#<=>` on title arrays is transitive |
| `WorksCount.StringsLeAntisymmetric` | app/services/hyrax/works_count_service.rb:25 | title arrays that compare both ways are equal |
| `WorksCount.StrLeTotal` | app/services/hyrax/works_count_service.rb:25 | any two strings are comparable under `<=>` |
| `WorksCount.StrLeTransitive` | app/services/hyrax/works_count_service.rb:25 | string comparison is transitive |
| `WorksCount.StrLeAntisymmetric` | app/services/hyrax/works_count_service.rb:25 | strings that compare both ways are equal |
| `WorksCount.CellLeTotal` | app/services/hyrax/works_count_service.rb:25 | any two cells are comparable |
| `WorksCount.CellLeTransitive` | app/services/hyrax/works_count_service.rb:25 | cell comparison is transitive |
| `WorksCount.InOrderIsTotalPreorder` | app/services/hyrax/works_count_service.rb:24-28 | both comparison blocks (ascending and descending) are total and transitive on rows |
| `WorksCount.ColumnsHaveOneKind` | app/services/hyrax/works_count_service.rb:21 | all built rows have the same kind of cell in any column, so `<=>` never meets two kinds |
| `WorksCount.SortRows` | app/services/hyrax/works_count_service.rb:24-28 | `sort!` leaves the rows a permutation of themselves, non-decreasing in the column for ascending and non-increasing otherwise |
| `WorksCount.SortedPermutationsAgreeOnKeys` | app/services/hyrax/works_count_service.rb:24-28 | any two sorted permutations of the same rows have the same keys in the sort column, so the result does not depend on how the sort breaks ties |
| `WorksCount.RowsOfPermutation` | app/services/hyrax/works_count_service.rb:19-22 | every row of a permutation of the built rows has 5 cells with 0 at index 2 |
| `WorksCount.SearchResultsWithWorkCount` | app/services/hyrax/works_count_service.rb:14-34 | raises exactly when the order is missing, the column is not an integer, or the column lies outside a 64-bit `long` and there are two or more documents to compare (RangeError from `row[column]`); otherwise `data` is a permutation of one row per document, each of 5 cells with 0 at index 2, sorted ascending for "asc" and descending for any other direction; `draw` is echoed, `recordsTotal` is `numFound` and `recordsFiltered` the document count |

## Left out

- The `acquire_lock_for` lock around `attach_to_work` (file_set_actor.rb:78): the block is modelled as one atomic step, so concurrent attaches are not modelled.
- Valkyrie persisters, `work.reload` and `work.save!`: the store's answers are parameters (`saved`, `stored`, `workSaved`), and a successful save is a `WorkSaved`/`FileSetSaved` event. The save in `attach_to_work` is logged whether or not the Work is valid; the store ignores an invalid Work, and the model does not either.
- Identifier minting: the FileSet's id is whatever it holds; the id the store gives on the first save is not written back.
- `file_set.parent` is a query against the store. The model keeps it as a field: nil for a new FileSet, and the Work after `attach_to_work` saves that Work with the FileSet among its members. It is not derived from `member_ids`, so a FileSet attached to several Works names the last one, and a Work save the store ignores still sets it.
- `JobIoWrapper` (`wrapper!`): the ingest job records only the relation, not the file, user or wrapper record.
- `IngestJob`, `VisibilityCopyJob`, `InheritPermissionsJob` and `FileActor#ingest_file`/`revert_to` run elsewhere. They appear as events; the revert's outcome is a parameter.
- Callbacks record the hook and the id or revision they are given. The FileSet object and user passed along with them are not recorded.
- `FileSetActors.FileSetActor.CreateMetadata`: the create actor stack is a foreign collaborator. Its invocation is logged and the visibility it leaves is a parameter (`applied`); the embargo and lease it applies are not modelled. The edit access `apply_depositor_metadata` grants and the optional block `yield` are not modelled either.
- `update_metadata` (file_set_actor.rb:103-106) only hands its attributes to the update actor stack; it is not modelled.
- `ability`, `build_file_actor`, `persister` and `file_actor_class` are plumbing; `attach_file_to_work` is a deprecated alias.
- `file_set.destroy` is taken to succeed; its cascade to content and derivatives belongs to the store.
- `FileSetRules.LabelFor` takes `original_name` and `file_url` to be strings. A nil `original_name` (file_set_actor.rb:144) leaves the label nil after `||=` (file_set_actor.rb:23) and makes the title `[nil]` (file_set_actor.rb:24), where `FileSetActors.FileSetActor.CreateContent` promises a label. A nil `file_url` makes `Addressable::URI.parse(nil)` return nil, and `.path` then raises NoMethodError (file_set_actor.rb:142), where the model gives a label.
- `RubyText.BlankString` treats ASCII white space only; Ruby's `blank?` also accepts other Unicode spaces.
- `RubyText.UriPath` removes scheme, authority, query and fragment only. `Addressable::URI.parse` raises `InvalidURIError` on some texts, such as `a b:/x`, `1x:/y` or `http:` without a hierarchical part; the model does not raise and keeps such a text as the path (`a b:/x` is labelled `x`).
- `RubyInteger.ParseInteger` follows `Integer` for signs, surrounding white space, the 0x/0b/0o/0d prefixes, a leading-zero octal and underscores between digits. Underscores next to a radix prefix, embedded NUL bytes and non-String arguments are not modelled.
- The Solr search and its builder (works_count_service.rb:36-46) and the date parsing and formatting of line 20 are external: documents carry their formatted date, and `numFound` is an input.
- Missing Solr fields are not modelled; every field here is present. A missing `system_create_dtsi` makes `DateTime.parse(nil)` raise TypeError (works_count_service.rb:20), and a missing `human_readable_type_tesim` makes `nil[0]` raise NoMethodError (works_count_service.rb:21), both while the rows are built and before any sort; they lie with the date handling outside the model. Only an empty `human_readable_type_tesim` or a missing `visibility_ssi` puts nil in a column. `<=>` then returns nil, and `sort!` raises ArgumentError only when that nil sits in the sort column and is compared with a string.
- The title is the multi-valued `title_tesim` array, compared with `Array#<=>` (`WorksCount.StringsLe`); every other field is a string.
- `WorksCount.FitsLong` takes `long` to be 64 bits wide, as on the usual 64-bit platforms; a 32-bit `long` would raise for smaller columns.
- `WorksCount.CellLe` orders cells of different kinds by kind, where Ruby raises. `WorksCount.ColumnsHaveOneKind` shows that built rows never need that order.
- `WorksCount.SortRows` is an insertion sort standing for Ruby's `sort!`. Ruby's sort is not stable, so only sortedness and permutation are specified. `WorksCount.SortedPermutationsAgreeOnKeys` shows that these two fix the keys of the result; only the order of rows with equal keys is left open.
