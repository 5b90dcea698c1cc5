/** The per-organisation decision rule of the republisher
    (`find_sane_doc_to_publish` with `all_same_docs`): given the editor
    documents of one organisation graph, ordered by modification time, decide
    which one to publish, or that there is nothing to publish, or that the set
    has to be checked by hand. The rule is stated here as the pure function
    `Decide`; the class in module Republisher runs it and records its side
    effect on the manual-check list. */
module Selection {
  import opened RubyOps
  import opened DocStates

  datatype Option<T> = None | Some(value: T)

  /** One row of the published-documents query: the document, when it was
      last updated, its owning organisation (IRI, name, classification) and
      its status IRI and title. */
  datatype DocRecord = DocRecord(
    doc: string,
    modified: int,
    eenheid: string,
    eenheidNaam: string,
    eenheidType: string,
    status: string,
    title: string)

  /** What one run of the rule comes to. `DuplicateDoc` is the raised error;
      `Postponed` is the `nil` returned for a last record that is already
      approved (nothing flagged); `Publish(d)` returns `d`; `ManualCheck(d)`
      returns `nil` and flags `d` for a manual check. */
  datatype Decision = DuplicateDoc | Postponed | Publish(doc: DocRecord) | ManualCheck(doc: DocRecord)

  function DocIds(rs: seq<DocRecord>): (ids: seq<string>)
    ensures |ids| == |rs| && forall i :: 0 <= i < |rs| ==> ids[i] == rs[i].doc
  {
    seq(|rs|, i requires 0 <= i < |rs| => rs[i].doc)
  }

  function Titles(rs: seq<DocRecord>): (ts: seq<string>)
    ensures |ts| == |rs| && forall i :: 0 <= i < |rs| ==> ts[i] == rs[i].title
  {
    seq(|rs|, i requires 0 <= i < |rs| => rs[i].title)
  }

  /** The integrity guard: `rs.uniq { doc }` is shorter than `rs`. */
  predicate HasDuplicateDoc(rs: seq<DocRecord>) {
    |Uniq(DocIds(rs))| != |rs|
  }

  /** `all_same_docs`: `rs.uniq { title }` has exactly one element. */
  predicate AllSameDocs(rs: seq<DocRecord>) {
    |Uniq(Titles(rs))| == 1
  }

  /** `rs.find { status is s }`, as the position of the first record whose
      status IRI maps back to `s`. */
  function FindStatus(rs: seq<DocRecord>, s: Status): (r: Option<nat>)
    ensures r.Some? ==> r.value < |rs| && StatusOf(rs[r.value].status) == s
    ensures r.Some? ==> forall j :: 0 <= j < r.value ==> StatusOf(rs[j].status) != s
    ensures r.None? <==> forall j :: 0 <= j < |rs| ==> StatusOf(rs[j].status) != s
  {
    if rs == [] then None
    else if StatusOf(rs[0].status) == s then Some(0)
    else match FindStatus(rs[1..], s)
      case None => None
      case Some(i) => Some(i + 1)
  }

  /** The decision rule, branch by branch in the order the republisher
      tests them; only the last record is ever returned or flagged. */
  function Decide(rs: seq<DocRecord>): Decision
    requires |rs| > 0
  {
    var last := rs[|rs| - 1];
    if HasDuplicateDoc(rs) then DuplicateDoc
    else if StatusOf(last.status) == Goedgekeurd then Postponed
    else if StatusOf(last.status) == BesluitenlijstPubliek then
      if AllSameDocs(rs) then Publish(last) else ManualCheck(last)
    else if StatusOf(last.status) == AgendaPubliek && FindStatus(rs, BesluitenlijstPubliek).None? then
      if AllSameDocs(rs) then Publish(last) else ManualCheck(last)
    else ManualCheck(last)
  }

  /** The value the republisher returns for a decision that did not raise. */
  function Returned(d: Decision): Option<DocRecord> {
    if d.Publish? then Some(d.doc) else None
  }

  /** What the decision appends to the manual-check list. */
  function Flagged(d: Decision): seq<DocRecord> {
    if d.ManualCheck? then [d.doc] else []
  }

  // Properties of the rule, stated without the Ruby library operations.

  /** No two records share a document IRI. */
  predicate DistinctDocs(rs: seq<DocRecord>) {
    forall i, j :: 0 <= i < j < |rs| ==> rs[i].doc != rs[j].doc
  }

  /** Every record carries the same title. */
  predicate SameTitles(rs: seq<DocRecord>) {
    forall i, j :: 0 <= i < |rs| && 0 <= j < |rs| ==> rs[i].title == rs[j].title
  }

  predicate HasStatus(rs: seq<DocRecord>, s: Status) {
    exists i :: 0 <= i < |rs| && StatusOf(rs[i].status) == s
  }

  function LastStatus(rs: seq<DocRecord>): Status
    requires |rs| > 0
  {
    StatusOf(rs[|rs| - 1].status)
  }

  lemma DuplicateGuardMeansRepeatedDoc(rs: seq<DocRecord>)
    ensures HasDuplicateDoc(rs) <==> !DistinctDocs(rs)
  {
    UniqKeepsLengthIffDistinct(DocIds(rs));
    assert Distinct(DocIds(rs)) <==> DistinctDocs(rs);
  }

  lemma AllSameDocsMeansSameTitles(rs: seq<DocRecord>)
    requires |rs| > 0
    ensures AllSameDocs(rs) <==> SameTitles(rs)
  {
    UniqSingletonIffAllEqual(Titles(rs));
  }

  /** The rule raises exactly when two records share a document IRI. */
  lemma DecideRaisesIffDuplicate(rs: seq<DocRecord>)
    requires |rs| > 0
    ensures Decide(rs) == DuplicateDoc <==> !DistinctDocs(rs)
  {
    DuplicateGuardMeansRepeatedDoc(rs);
  }

  /** A last record that is already approved makes the rule return `nil`
      without flagging anything, whatever came before it. */
  lemma DecidePostponesApproved(rs: seq<DocRecord>)
    requires |rs| > 0
    ensures Decide(rs) == Postponed <==> DistinctDocs(rs) && LastStatus(rs) == Goedgekeurd
    ensures Decide(rs) == Postponed ==> Returned(Decide(rs)) == None && Flagged(Decide(rs)) == []
  {
    DuplicateGuardMeansRepeatedDoc(rs);
  }

  /** The rule publishes exactly when the documents are distinct, their
      titles agree, and the last record is either a public decision list or a
      public agenda with no public decision list anywhere in the set; what it
      publishes is the last record. */
  lemma DecidePublishIff(rs: seq<DocRecord>, d: DocRecord)
    requires |rs| > 0
    ensures Decide(rs) == Publish(d) <==>
      DistinctDocs(rs) && SameTitles(rs) && d == rs[|rs| - 1] &&
      (LastStatus(rs) == BesluitenlijstPubliek ||
       (LastStatus(rs) == AgendaPubliek && !HasStatus(rs, BesluitenlijstPubliek)))
  {
    DuplicateGuardMeansRepeatedDoc(rs);
    AllSameDocsMeansSameTitles(rs);
  }

  /** A public-decision-list last record, or a public agenda with no decision
      list in the set, whose titles disagree is flagged for a manual check. */
  lemma DecideFlagsTitleMismatch(rs: seq<DocRecord>)
    requires |rs| > 0
    requires DistinctDocs(rs) && !SameTitles(rs)
    requires LastStatus(rs) == BesluitenlijstPubliek ||
             (LastStatus(rs) == AgendaPubliek && !HasStatus(rs, BesluitenlijstPubliek))
    ensures Decide(rs) == ManualCheck(rs[|rs| - 1])
    ensures Returned(Decide(rs)) == None && Flagged(Decide(rs)) == [rs[|rs| - 1]]
  {
    DuplicateGuardMeansRepeatedDoc(rs);
    AllSameDocsMeansSameTitles(rs);
  }

  /** A public agenda after a public decision list, or a last status that is
      neither of the public tiers nor approved, is flagged for a manual check
      whatever the titles. */
  lemma DecideFlagsOddState(rs: seq<DocRecord>)
    requires |rs| > 0
    requires DistinctDocs(rs)
    requires (LastStatus(rs) == AgendaPubliek && HasStatus(rs, BesluitenlijstPubliek)) ||
             LastStatus(rs) in {Prullenbak, Unmapped}
    ensures Decide(rs) == ManualCheck(rs[|rs| - 1])
    ensures Returned(Decide(rs)) == None && Flagged(Decide(rs)) == [rs[|rs| - 1]]
  {
    DuplicateGuardMeansRepeatedDoc(rs);
  }

  /** Whatever the rule returns is the last record, in one of the two public
      tiers; one run adds at most one record to the manual-check list, and
      never any record but the last. */
  lemma DecideOnlyTouchesLast(rs: seq<DocRecord>)
    requires |rs| > 0
    ensures Returned(Decide(rs)).Some? ==>
      Returned(Decide(rs)).value == rs[|rs| - 1] &&
      LastStatus(rs) in {BesluitenlijstPubliek, AgendaPubliek}
    ensures |Flagged(Decide(rs))| <= 1
    ensures forall f :: f in Flagged(Decide(rs)) ==> f == rs[|rs| - 1]
  {
  }

  /** Records ordered by modification time, oldest first. */
  predicate SortedByModified(rs: seq<DocRecord>) {
    forall i, j :: 0 <= i < j < |rs| ==> rs[i].modified <= rs[j].modified
  }

  /** On input ordered the way the query orders it, the published record is
      the most recently modified one. */
  lemma PublishedIsNewest(rs: seq<DocRecord>, d: DocRecord)
    requires |rs| > 0 && SortedByModified(rs)
    requires Decide(rs) == Publish(d)
    ensures forall r :: r in rs ==> r.modified <= d.modified
  {
  }

  // Worked cases. The second and third show where the rule as written
  // differs from a rule that treats an approved record anywhere in the set
  // as needing a manual check.

  function Rec(doc: string, modified: int, status: Status, title: string): DocRecord
    requires status != Unmapped
  {
    DocRecord(doc, modified, "http://data.lblod.info/id/bestuurseenheden/e", "Gent", "Gemeente",
              DOCSTATES[Name(status)], title)
  }

  /** A public agenda followed by a public decision list with the same title:
      the decision list is published. */
  lemma AgendaThenDecisionListPublishes()
    ensures var rs := [Rec("d1", 1, AgendaPubliek, "Council Meeting"),
                       Rec("d2", 2, BesluitenlijstPubliek, "Council Meeting")];
      Decide(rs) == Publish(rs[1])
  {
    var rs := [Rec("d1", 1, AgendaPubliek, "Council Meeting"),
               Rec("d2", 2, BesluitenlijstPubliek, "Council Meeting")];
    InvertRoundTrip("agenda publiek");
    InvertRoundTrip("besluitenlijst publiek");
    DecidePublishIff(rs, rs[1]);
  }

  /** An approved last record is set aside without a manual check, even when
      the titles disagree. */
  lemma ApprovedLastWithOtherTitleIsNotFlagged()
    ensures var rs := [Rec("d1", 1, AgendaPubliek, "Title A"),
                       Rec("d2", 2, Goedgekeurd, "Title B")];
      Decide(rs) == Postponed && Flagged(Decide(rs)) == []
  {
    var rs := [Rec("d1", 1, AgendaPubliek, "Title A"),
               Rec("d2", 2, Goedgekeurd, "Title B")];
    InvertRoundTrip("goedgekeurd");
    DecidePostponesApproved(rs);
  }

  /** A public agenda after an approved record with the same title is
      published: earlier approved records are never looked for. */
  lemma AgendaAfterApprovedPublishes()
    ensures var rs := [Rec("d1", 1, Goedgekeurd, "Meeting X"),
                       Rec("d2", 2, AgendaPubliek, "Meeting X")];
      Decide(rs) == Publish(rs[1])
  {
    var rs := [Rec("d1", 1, Goedgekeurd, "Meeting X"),
               Rec("d2", 2, AgendaPubliek, "Meeting X")];
    InvertRoundTrip("goedgekeurd");
    InvertRoundTrip("agenda publiek");
    DecidePublishIff(rs, rs[1]);
  }
}
