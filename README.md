# Republisher of editor documents — a Dafny model

`republish.rb` is a batch script run against a SPARQL store. It looks at every
organisation graph that holds editor documents. For each graph it reads the
newest version of every document whose status is one of the public tiers. It
then decides which document, if any, is the one to publish. For every document
it picks, it prepares (but never sends) the removal updates for the sessions
(zittingen) already published for that organisation.

This project models that core:

- `ruby_ops.dfy` (module `RubyOps`): the two Ruby library operations the rule
  depends on. `Array#uniq` is used to detect duplicate documents and to compare
  titles. `String#gsub` with an empty replacement turns a graph IRI into an
  organisation uuid.
- `doc_states.dfy` (module `DocStates`): the `DOCSTATES` table. Statuses are a
  closed enum. The reverse lookup `DOCSTATES.invert[iri]` is `StatusOf`, with
  `Unmapped` for an IRI the table lacks.
- `selection.dfy` (module `Selection`): `find_sane_doc_to_publish` as the pure
  decision `Decide`, with `all_same_docs`, the duplicate guard and the `find`
  for a public decision list. The lemmas state each outcome of the rule in
  plain terms: distinct documents, equal titles, the status of the last record.
- `republisher.dfy` (module `Republisher`): the `Republisher` object. It has
  the `@manual_check` and `@published_status_no_publication` lists and a log
  of the removal updates it issues. `find_docs_to_republish` and
  `cleanup_published_page` are loops, each proved against a specification
  function (`ScanGraphs`, `CleanupTrace`, `Unlinked`). The properties of those
  functions are proved as lemmas.

The store is the value `Store`, held by the object as the SPARQL client is. It
gives three answers: the graph list, the published documents of an
organisation (looked up by uuid and graph IRI), and the sessions linked to an
organisation.

The two removal methods only assign their update text to a local variable
called `query`. That variable shadows the `query` method, so nothing is ever
sent to the store (republish.rb:138, 176). The model therefore records each
removal as an event in `cleanupLog`. It does not model any change to the
store's triples.

Within the decision rule, the code is narrower than a rule that ranks approved
above decision list above agenda. The model follows the code:

- When the last record is `goedgekeurd` (approved), the code returns `nil` and
  flags nothing, whatever the titles are. A ranking rule would publish that
  record when the titles agree and flag it otherwise.
- The code never looks for an approved record that is not last. A public
  agenda that follows an approved record with the same title is published. A
  ranking rule would send that case to manual review.

`ApprovedLastWithOtherTitleIsNotFlagged` and `AgendaAfterApprovedPublishes`
show these two behaviours on concrete records.

## Model

| member | source | states |
|---|---|---|
| `Selection.HasDuplicateDoc` | republish.rb:252-254 | no contract; characterized by `DuplicateGuardMeansRepeatedDoc` |
| `Selection.AllSameDocs` | republish.rb:290-292 | no contract; characterized by `AllSameDocsMeansSameTitles` |
| `Selection.Decide` | republish.rb:246-288 | no contract; characterized by `DecideRaisesIffDuplicate`, `DecidePostponesApproved`, `DecidePublishIff`, `DecideFlagsTitleMismatch`, `DecideFlagsOddState` and `DecideOnlyTouchesLast`, which together cover every branch |
| `Republisher.FindPublishedDocs` | republish.rb:204-205 | no contract; the published documents of a graph, looked up by the uuid `OrganisationUuid` derives from the graph IRI and by the graph IRI itself |
| `Republisher.LinkedZittingen` | republish.rb:77 | no contract; the sessions linked to a document's organisation |
| `Republisher.Advance` | republish.rb:59-72 | no contract; one graph's step of the walk, characterized by `AdvanceDocs` and `AdvanceRaises` |
| `Republisher.ScanGraphs` | republish.rb:56-73 | no contract; the walk `find_docs_to_republish` is proved equal to, characterized by `ScanKeepsGraphOrder`, `ScanKeepsPublished`, `ScanBounded`, `ScanRaisesIffDuplicate` and `ScanStopsAtRaise` |
| `Republisher.ZittingOps` | republish.rb:85-95 | no contract; the removals issued for a list of sessions, characterized by `ZittingOpsShape` |
| `Republisher.CleanupTrace` | republish.rb:75-95 | no contract; the removals issued for the chosen documents, characterized by `CleanupTraceCovers` and `CleanupTraceSound` |
| `Republisher.Unlinked` | republish.rb:76-83 | no contract; the chosen documents reported as having no publication, characterized by `UnlinkedIff` |
| `DocStates.StatusOf` | republish.rb:250 | the reverse lookup gives a named status exactly when the IRI is one of the table's values, and then the table maps that status's name back to the IRI |
| `DocStates.InvertRoundTrip` | republish.rb:32-35 | the table is injective: inverting the IRI of any name in the table gives that name back |
| `RubyOps.Uniq` | republish.rb:252 | `uniq` keeps the same elements, none twice, and is never longer than its input |
| `RubyOps.UniqKeepsLengthIffDistinct` | republish.rb:252 | `uniq` keeps the length exactly when no element repeats |
| `RubyOps.UniqSingletonIffAllEqual` | republish.rb:291 | `uniq` has exactly one element exactly when the input is non-empty and all its elements are equal |
| `RubyOps.RemoveAll` | republish.rb:205 | removing every occurrence of a non-empty pattern never lengthens a string, and leaves it unchanged when nothing is removed |
| `RubyOps.RemoveAllAbsent` | republish.rb:205 | a string in which the pattern does not occur comes back unchanged |
| `RubyOps.RemoveAllLeading` | republish.rb:205 | a leading copy of the pattern is dropped and the rest is processed on its own |
| `Republisher.OrganisationUuid` | republish.rb:205 | the derived uuid is never longer than the graph IRI |
| `Republisher.OrganisationUuidOfGraph` | republish.rb:204-205 | for a graph IRI made of the organisations prefix followed by a uuid that does not contain the prefix, the derivation returns that uuid |
| `Selection.FindStatus` | republish.rb:273 | `find` returns the position of the first record with the given status, and returns none exactly when no record has it |
| `Selection.DuplicateGuardMeansRepeatedDoc` | republish.rb:252-254 | the `uniq` length guard fails exactly when two records share a document IRI |
| `Selection.AllSameDocsMeansSameTitles` | republish.rb:290-292 | `all_same_docs` holds on a non-empty set exactly when every record has the same title |
| `Selection.DecideRaisesIffDuplicate` | republish.rb:252-254 | the rule raises exactly when two records share a document IRI |
| `Selection.DecidePostponesApproved` | republish.rb:256-260 | the rule returns `nil` without flagging exactly when the documents are distinct and the last status is `goedgekeurd` |
| `Selection.DecidePublishIff` | republish.rb:262-283 | the rule publishes `d` exactly when the documents are distinct, all titles agree, `d` is the last record, and that record is a public decision list, or a public agenda with no public decision list anywhere in the set |
| `Selection.DecideFlagsTitleMismatch` | republish.rb:263-280 | a public decision list last, or a public agenda last with no decision list in the set, with disagreeing titles: returns `nil` and flags exactly the last record |
| `Selection.DecideFlagsOddState` | republish.rb:273-287 | a public agenda last after a public decision list, or a last status that is trashed or unmapped: returns `nil` and flags exactly the last record, whatever the titles |
| `Selection.DecideOnlyTouchesLast` | republish.rb:246-288 | any record returned is the last one and has a public-tier status; any record flagged is the last one |
| `Selection.PublishedIsNewest` | republish.rb:241-249 | on input ordered by modification time, as the query returns it, the published record is the most recently modified one |
| `Selection.AgendaThenDecisionListPublishes` | republish.rb:262-271 | a public agenda followed by a public decision list with the same title: the decision list is published |
| `Selection.ApprovedLastWithOtherTitleIsNotFlagged` | republish.rb:256-260 | an approved last record is set aside without a manual check even when the titles differ |
| `Selection.AgendaAfterApprovedPublishes` | republish.rb:273-283 | a public agenda after an approved record with the same title is published, because earlier approved records are never looked for |
| `Republisher.ScanKeepsGraphOrder` | republish.rb:56-73 | each chosen document is what the rule publishes for a graph with at least one document, and the chosen documents keep graph order (their graphs' positions strictly increase) |
| `Republisher.ScanKeepsPublished` | republish.rb:59-72 | a graph reached before any raise whose rule publishes a document puts that document among the chosen ones |
| `Republisher.ScanDocsGrow` | republish.rb:59-72 | later graphs never remove a chosen document: the documents chosen after the first graphs are a prefix of those chosen after all of them |
| `Republisher.AdvanceDocs` | republish.rb:62-70 | one graph adds a chosen document exactly when it is reached before any raise, has documents and its rule publishes; otherwise the chosen documents are unchanged |
| `Republisher.AdvanceRaises` | republish.rb:62-66 | one graph's step raises exactly when the walk had raised already or the graph's non-empty documents hold a duplicate |
| `Republisher.ScanBounded` | republish.rb:59-72 | the chosen documents and the flagged records together never outnumber the graphs |
| `Republisher.ScanRaisesIffDuplicate` | republish.rb:56-73 | the walk raises exactly when some graph's non-empty document set holds two records for the same document |
| `Republisher.ScanStopsAtRaise` | republish.rb:66 | once the duplicate error is raised, later graphs change nothing |
| `Republisher.ZittingOpsShape` | republish.rb:85-95 | every session gets exactly two removals in session order, the full chain first and then the agenda-only chain |
| `Republisher.UnlinkedIff` | republish.rb:76-83 | a document is reported as having no publication exactly when it was chosen and its organisation has no linked session |
| `Republisher.CleanupTraceCovers` | republish.rb:75-95 | every session linked to a chosen document's organisation receives both removals |
| `Republisher.CleanupTraceSound` | republish.rb:75-95 | every removal issued is for a session linked to some chosen document's organisation, so an organisation without sessions causes none |
| `Republisher.Republisher.constructor` | republish.rb:37-45 | a new republisher has an empty manual-check list, an empty no-publication list and has issued no removals |
| `Republisher.Republisher.Run` | republish.rb:47-54 | choose documents, then clean up. On a raised duplicate the run fails and only the manual-check list has grown. Otherwise the no-publication list and the removal log grow by exactly the specified entries for the chosen documents |
| `Republisher.Republisher.FindDocsToRepublish` | republish.rb:56-73 | the loop over graphs returns exactly the walk's chosen documents, or the duplicate error, and appends exactly the walk's flagged records to the manual-check list |
| `Republisher.Republisher.FindSaneDocToPublish` | republish.rb:246-288 | returns what `Decide` returns, raising on duplicates, and appends exactly what `Decide` flags to the manual-check list |
| `Republisher.Republisher.CleanupPublishedPage` | republish.rb:75-90 | appends exactly the unlinked chosen documents to the no-publication list and exactly the removals for their linked sessions to the log |
| `Republisher.Republisher.CleanupZittingen` | republish.rb:85-88 | the loop over one organisation's sessions issues exactly the two removals of every session, in session order |
| `Republisher.Republisher.CleanupZitting` | republish.rb:92-95 | issues the full-chain removal and then the agenda-only removal for one session |
| `Republisher.Republisher.RemoveZittingWithBesluiten` | republish.rb:137-173 | records one full-chain removal for the session |
| `Republisher.Republisher.RemoveZittingWithAgendaOnly` | republish.rb:175-202 | records one agenda-only removal for the session |

## Left out

- The SPARQL query and update texts and the `SPARQL::Client` calls (`find_graphs_with_doc`, the body of `find_published_docs`, `find_zittingen_linked_to_eenheid`, `query`). The store is the abstract `Store` value; its answers are inputs. For this reason the filters of the published-documents query (public-tier statuses only, newest version only, ordered by modification time) are not enforced. `PublishedIsNewest` takes the ordering as a hypothesis.
- The effect of the two removal updates on the store's triples. They are never sent (see above), so the model only records that each was attempted.
- The database readiness poll (`wait_for_db`, `is_database_up?`). It is HTTP I/O with an unbounded `sleep` loop.
- Console output and the debugger: the `p` calls, `print_things_to_check_manually`, `binding.pry` and the `Logger`.
- The script bootstrap from the `ENDPOINT` environment variable.
- The `?content` and `?statusName` columns of the published-documents query. The rule never reads them, so `DocRecord` leaves them out.
- Ruby's `find` returns the matching record; `Selection.FindStatus` returns its position instead. Only whether a match exists is used.
- An empty document set: the object never gives one to `find_sane_doc_to_publish` (republish.rb:62-65). If it did, the Ruby method would fail on `nil.status`, so `FindSaneDocToPublish` requires a non-empty set.
- Modification times are plain integers, not `xsd:dateTime` literals.
