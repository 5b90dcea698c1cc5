/** The republisher object: it walks the organisation graphs, runs the
    decision rule on each graph's documents, and for every document chosen
    cleans up the sessions (zittingen) already published for its
    organisation. The store is reached through the lookups held in `Store`;
    the removal updates are recorded, in the order they are issued, in
    `cleanupLog`. */
module Republisher {
  import opened RubyOps
  import opened DocStates
  import opened Selection

  /** The error the republisher raises; it ends the whole run. */
  datatype Error = DuplicateDocUri

  datatype Result<T> = Success(value: T) | Failure(error: Error)

  /** One row of the linked-sessions query: the session IRI and uuid, and the
      organisation that holds it. */
  datatype Zitting = Zitting(
    zitting: string,
    zittingId: string,
    eenheid: string,
    eenheidId: string,
    eenheidNaam: string,
    eenheidType: string)

  /** The two removal updates issued for a session: the whole published chain
      (agenda, agenda items, decision records, decisions, articles) and the
      agenda-only chain. */
  datatype Removal = WithBesluiten | AgendaOnly

  datatype CleanupOp = CleanupOp(kind: Removal, zittingId: string)

  /** The answers of the store, as the queries see them: the graphs holding
      an editor document, the published documents of an organisation (by
      uuid and graph IRI), ordered by modification time, and the sessions
      linked to an organisation IRI. */
  datatype Store = Store(
    graphs: seq<string>,
    publishedDocs: (string, string) -> seq<DocRecord>,
    zittingen: string -> seq<Zitting>)

  const OrganizationsGraphPrefix: string := "http://mu.semte.ch/graphs/organizations/"

  /** The organisation uuid derived from a graph IRI: every occurrence of the
      organisations-graph prefix removed. */
  function OrganisationUuid(g: string): (uuid: string)
    ensures |uuid| <= |g|
  {
    RemoveAll(g, OrganizationsGraphPrefix)
  }

  /** For a graph IRI built as prefix + uuid, the derivation gives the uuid
      back, provided the uuid does not itself contain the prefix. */
  lemma OrganisationUuidOfGraph(uuid: string)
    requires !Occurs(OrganizationsGraphPrefix, uuid)
    ensures OrganisationUuid(OrganizationsGraphPrefix + uuid) == uuid
  {
    RemoveAllLeading(OrganizationsGraphPrefix, uuid);
    RemoveAllAbsent(uuid, OrganizationsGraphPrefix);
  }

  /** `find_published_docs(g)`. */
  function FindPublishedDocs(store: Store, g: string): seq<DocRecord> {
    store.publishedDocs(OrganisationUuid(g), g)
  }

  /** `find_zittingen_linked_to_eenheid(d.eenheid)`. */
  function LinkedZittingen(store: Store, d: DocRecord): seq<Zitting> {
    store.zittingen(d.eenheid)
  }

  // ---------------------------------------------------------------------
  // Specification of `find_docs_to_republish`

  /** The state of the walk over the organisation graphs: the documents chosen
      so far, the records flagged for a manual check so far, and whether the
      duplicate-document error was raised (after which nothing more happens). */
  datatype Scan = Scan(docs: seq<DocRecord>, flagged: seq<DocRecord>, raised: bool)

  /** One graph's step of the walk, given that graph's documents `rs`: after
      a raise, or for a graph without documents, nothing happens; otherwise
      the decision rule runs on `rs`. */
  function Advance(s: Scan, rs: seq<DocRecord>): Scan {
    if s.raised || |rs| == 0 then s
    else match Decide(rs)
      case DuplicateDoc => s.(raised := true)
      case Postponed => s
      case Publish(d) => s.(docs := s.docs + [d])
      case ManualCheck(d) => s.(flagged := s.flagged + [d])
  }

  /** The walk over the graphs `gs`, one graph at a time. */
  function ScanGraphs(store: Store, gs: seq<string>): Scan
    decreases |gs|
  {
    if gs == [] then Scan([], [], false)
    else Advance(ScanGraphs(store, gs[..|gs| - 1]), FindPublishedDocs(store, gs[|gs| - 1]))
  }

  /** One step of the `find_docs_to_republish` loop, in the prefix form its
      invariant uses; `flagged` is the list the loop started from. */
  lemma ScanGraphsStep(store: Store, gs: seq<string>, i: nat, flagged: seq<DocRecord>)
    requires i < |gs|
    ensures ScanGraphs(store, gs[..i + 1]) == Advance(ScanGraphs(store, gs[..i]), FindPublishedDocs(store, gs[i]))
    ensures var s, rs := ScanGraphs(store, gs[..i]), FindPublishedDocs(store, gs[i]);
      !s.raised && |rs| > 0 ==>
        flagged + Advance(s, rs).flagged == flagged + s.flagged + Flagged(Decide(rs))
  {
    assert gs[..i + 1][..i] == gs[..i];
  }

  /** For each chosen document, the position of the graph it was chosen from. */
  function Origins(store: Store, gs: seq<string>): seq<nat>
    decreases |gs|
  {
    if gs == [] then []
    else
      var o := Origins(store, gs[..|gs| - 1]);
      var s := ScanGraphs(store, gs[..|gs| - 1]);
      var rs := FindPublishedDocs(store, gs[|gs| - 1]);
      if !s.raised && |rs| > 0 && Decide(rs).Publish? then o + [|gs| - 1] else o
  }

  /** Each chosen document is what the rule publishes for a graph with
      documents, and the chosen documents come in graph order: their graphs'
      positions strictly increase. */
  lemma {:induction false} ScanKeepsGraphOrder(store: Store, gs: seq<string>)
    ensures |Origins(store, gs)| == |ScanGraphs(store, gs).docs|
    ensures forall k :: 0 <= k < |Origins(store, gs)| ==>
      Origins(store, gs)[k] < |gs| &&
      |FindPublishedDocs(store, gs[Origins(store, gs)[k]])| > 0 &&
      Decide(FindPublishedDocs(store, gs[Origins(store, gs)[k]])) == Publish(ScanGraphs(store, gs).docs[k])
    ensures forall k, l :: 0 <= k < l < |Origins(store, gs)| ==> Origins(store, gs)[k] < Origins(store, gs)[l]
    decreases |gs|
  {
    if gs != [] {
      var pre := gs[..|gs| - 1];
      ScanKeepsGraphOrder(store, pre);
      AdvanceDocs(ScanGraphs(store, pre), FindPublishedDocs(store, gs[|gs| - 1]));
      forall k | 0 <= k < |Origins(store, pre)| ensures gs[Origins(store, pre)[k]] == pre[Origins(store, pre)[k]] {
      }
    }
  }

  /** The converse of `ScanKeepsGraphOrder`: a graph reached before any
      raise, whose rule publishes a document, puts that document among the
      chosen ones. */
  lemma ScanKeepsPublished(store: Store, gs: seq<string>, j: nat)
    requires j < |gs|
    requires !ScanGraphs(store, gs[..j]).raised
    requires |FindPublishedDocs(store, gs[j])| > 0
    requires Decide(FindPublishedDocs(store, gs[j])).Publish?
    ensures Decide(FindPublishedDocs(store, gs[j])).doc in ScanGraphs(store, gs).docs
  {
    var rs := FindPublishedDocs(store, gs[j]);
    ScanGraphsStep(store, gs, j, []);
    AdvanceDocs(ScanGraphs(store, gs[..j]), rs);
    assert Decide(rs).doc in ScanGraphs(store, gs[..j + 1]).docs;
    ScanDocsGrow(store, gs, j + 1);
  }

  /** Later graphs never remove a chosen document: the chosen documents after
      the first `i` graphs are a prefix of those after all of them. */
  lemma {:induction false} ScanDocsGrow(store: Store, gs: seq<string>, i: nat)
    requires i <= |gs|
    ensures ScanGraphs(store, gs[..i]).docs <= ScanGraphs(store, gs).docs
    decreases |gs|
  {
    if i == |gs| {
      assert gs[..i] == gs;
    } else {
      var pre := gs[..|gs| - 1];
      assert pre[..i] == gs[..i];
      ScanDocsGrow(store, pre, i);
      AdvanceDocs(ScanGraphs(store, pre), FindPublishedDocs(store, gs[|gs| - 1]));
    }
  }

  /** One step of the walk adds a chosen document exactly when the rule
      publishes one for the graph. */
  lemma AdvanceDocs(s: Scan, rs: seq<DocRecord>)
    ensures !s.raised && |rs| > 0 && Decide(rs).Publish? ==> Advance(s, rs).docs == s.docs + [Decide(rs).doc]
    ensures !(!s.raised && |rs| > 0 && Decide(rs).Publish?) ==> Advance(s, rs).docs == s.docs
  {
  }

  /** Each graph adds at most one entry, to the chosen documents or to the
      flagged records, so neither list outgrows the graphs. */
  lemma {:induction false} ScanBounded(store: Store, gs: seq<string>)
    ensures |ScanGraphs(store, gs).docs| + |ScanGraphs(store, gs).flagged| <= |gs|
    decreases |gs|
  {
    if gs != [] {
      ScanBounded(store, gs[..|gs| - 1]);
    }
  }

  /** Graph `g` has documents, and two of them share a document IRI. */
  predicate DuplicateIn(store: Store, g: string) {
    var rs := FindPublishedDocs(store, g);
    |rs| > 0 && !DistinctDocs(rs)
  }

  /** The walk raises exactly when some graph's non-empty document set holds
      two records for the same document. */
  lemma {:induction false} ScanRaisesIffDuplicate(store: Store, gs: seq<string>)
    ensures ScanGraphs(store, gs).raised <==> AnyDuplicate(store, gs)
    decreases |gs|
  {
    if gs != [] {
      var pre, g := gs[..|gs| - 1], gs[|gs| - 1];
      ScanRaisesIffDuplicate(store, pre);
      AdvanceRaises(ScanGraphs(store, pre), FindPublishedDocs(store, g));
      DuplicateInSnoc(store, gs);
    }
  }

  /** One step of the walk raises exactly when it had raised already or the
      graph's documents hold a duplicate. */
  lemma AdvanceRaises(s: Scan, rs: seq<DocRecord>)
    ensures Advance(s, rs).raised <==> s.raised || (|rs| > 0 && !DistinctDocs(rs))
  {
    if |rs| > 0 {
      DecideRaisesIffDuplicate(rs);
    }
  }

  /** Some graph of `gs` holds a duplicate. */
  predicate AnyDuplicate(store: Store, gs: seq<string>) {
    exists i :: 0 <= i < |gs| && DuplicateIn(store, gs[i])
  }

  /** `AnyDuplicate` over `gs` splits into the graphs before the last one
      and the last one. */
  lemma DuplicateInSnoc(store: Store, gs: seq<string>)
    requires gs != []
    ensures AnyDuplicate(store, gs) <==> AnyDuplicate(store, gs[..|gs| - 1]) || DuplicateIn(store, gs[|gs| - 1])
  {
    var pre := gs[..|gs| - 1];
    if exists i :: 0 <= i < |pre| && DuplicateIn(store, pre[i]) {
      var i :| 0 <= i < |pre| && DuplicateIn(store, pre[i]);
      assert gs[i] == pre[i];
    }
    if exists i :: 0 <= i < |gs| && DuplicateIn(store, gs[i]) {
      var i :| 0 <= i < |gs| && DuplicateIn(store, gs[i]);
      if i < |pre| {
        assert gs[i] == pre[i];
      }
    }
  }

  /** Once the walk has raised, the graphs after that point change nothing. */
  lemma {:induction false} ScanStopsAtRaise(store: Store, gs: seq<string>, i: nat)
    requires i <= |gs|
    requires ScanGraphs(store, gs[..i]).raised
    ensures ScanGraphs(store, gs) == ScanGraphs(store, gs[..i])
    decreases |gs|
  {
    if i == |gs| {
      assert gs[..i] == gs;
    } else {
      var pre := gs[..|gs| - 1];
      assert pre[..i] == gs[..i];
      ScanStopsAtRaise(store, pre, i);
    }
  }

  // ---------------------------------------------------------------------
  // Specification of `cleanup_published_page`

  /** The removals issued for a list of sessions: for each session in order,
      the full-chain removal and then the agenda-only removal. */
  function ZittingOps(zs: seq<Zitting>): seq<CleanupOp>
    decreases |zs|
  {
    if zs == [] then []
    else
      var z := zs[|zs| - 1];
      ZittingOps(zs[..|zs| - 1]) + [CleanupOp(WithBesluiten, z.zittingId), CleanupOp(AgendaOnly, z.zittingId)]
  }

  /** The removals issued for the chosen documents, document by document. */
  function CleanupTrace(store: Store, docs: seq<DocRecord>): seq<CleanupOp>
    decreases |docs|
  {
    if docs == [] then []
    else CleanupTrace(store, docs[..|docs| - 1]) + ZittingOps(LinkedZittingen(store, docs[|docs| - 1]))
  }

  /** The chosen documents whose organisation has no linked session, in order. */
  function Unlinked(store: Store, docs: seq<DocRecord>): seq<DocRecord>
    decreases |docs|
  {
    if docs == [] then []
    else
      var d := docs[|docs| - 1];
      Unlinked(store, docs[..|docs| - 1]) + if |LinkedZittingen(store, d)| == 0 then [d] else []
  }

  /** One step of the `cleanup_published_page` loop, in the prefix form its
      invariants use; `log` and `reported` are the lists the loop started
      from. */
  lemma CleanupStep(store: Store, docs: seq<DocRecord>, i: nat, log: seq<CleanupOp>, reported: seq<DocRecord>)
    requires i < |docs|
    ensures log + CleanupTrace(store, docs[..i + 1]) == log + CleanupTrace(store, docs[..i]) + ZittingOps(LinkedZittingen(store, docs[i]))
    ensures |LinkedZittingen(store, docs[i])| == 0 ==>
      reported + Unlinked(store, docs[..i + 1]) == reported + Unlinked(store, docs[..i]) + [docs[i]] &&
      log + CleanupTrace(store, docs[..i + 1]) == log + CleanupTrace(store, docs[..i])
    ensures |LinkedZittingen(store, docs[i])| > 0 ==>
      reported + Unlinked(store, docs[..i + 1]) == reported + Unlinked(store, docs[..i])
  {
    assert docs[..i + 1][..i] == docs[..i];
  }

  /** One step of the loop over one organisation's sessions, in the prefix
      form its invariant uses; `log` is the log the loop started from. */
  lemma ZittingOpsStep(zs: seq<Zitting>, j: nat, log: seq<CleanupOp>)
    requires j < |zs|
    ensures log + ZittingOps(zs[..j + 1]) == log + ZittingOps(zs[..j]) + ZittingOps([zs[j]])
  {
    assert zs[..j + 1][..j] == zs[..j];
    assert [zs[j]][..0] == [];
  }

  /** Every session gets exactly two removals, the full chain first and the
      agenda-only chain second, in session order. */
  lemma {:induction false} ZittingOpsShape(zs: seq<Zitting>)
    ensures |ZittingOps(zs)| == 2 * |zs|
    ensures forall k :: 0 <= k < |zs| ==>
      ZittingOps(zs)[2 * k] == CleanupOp(WithBesluiten, zs[k].zittingId) &&
      ZittingOps(zs)[2 * k + 1] == CleanupOp(AgendaOnly, zs[k].zittingId)
    decreases |zs|
  {
    if zs != [] {
      var pre := zs[..|zs| - 1];
      ZittingOpsShape(pre);
      forall k | 0 <= k < |zs|
        ensures ZittingOps(zs)[2 * k] == CleanupOp(WithBesluiten, zs[k].zittingId)
        ensures ZittingOps(zs)[2 * k + 1] == CleanupOp(AgendaOnly, zs[k].zittingId)
      {
        if k < |pre| {
          assert zs[k] == pre[k];
        }
      }
    }
  }

  /** A document is reported as published without a session exactly when it
      is chosen and its organisation has no linked session. */
  lemma {:induction false} UnlinkedIff(store: Store, docs: seq<DocRecord>, d: DocRecord)
    ensures d in Unlinked(store, docs) <==> d in docs && |LinkedZittingen(store, d)| == 0
    decreases |docs|
  {
    if docs != [] {
      var pre := docs[..|docs| - 1];
      UnlinkedIff(store, pre, d);
      assert docs == pre + [docs[|docs| - 1]];
    }
  }

  /** Every session linked to a chosen document's organisation receives both
      removals. */
  lemma {:induction false} CleanupTraceCovers(store: Store, docs: seq<DocRecord>, d: DocRecord, z: Zitting)
    requires d in docs && z in LinkedZittingen(store, d)
    ensures CleanupOp(WithBesluiten, z.zittingId) in CleanupTrace(store, docs)
    ensures CleanupOp(AgendaOnly, z.zittingId) in CleanupTrace(store, docs)
    decreases |docs|
  {
    var pre := docs[..|docs| - 1];
    assert docs == pre + [docs[|docs| - 1]];
    if d in pre {
      CleanupTraceCovers(store, pre, d, z);
    } else {
      var zs := LinkedZittingen(store, d);
      var k :| 0 <= k < |zs| && zs[k] == z;
      ZittingOpsShape(zs);
      assert ZittingOps(zs)[2 * k] == CleanupOp(WithBesluiten, z.zittingId);
      assert ZittingOps(zs)[2 * k + 1] == CleanupOp(AgendaOnly, z.zittingId);
    }
  }

  /** Every removal issued is for a session linked to some chosen document's
      organisation; a document without linked sessions causes none. */
  lemma {:induction false} CleanupTraceSound(store: Store, docs: seq<DocRecord>, op: CleanupOp)
    requires op in CleanupTrace(store, docs)
    ensures exists i, k ::
      0 <= i < |docs| && 0 <= k < |LinkedZittingen(store, docs[i])| &&
      op.zittingId == LinkedZittingen(store, docs[i])[k].zittingId
    decreases |docs|
  {
    var pre := docs[..|docs| - 1];
    var zs := LinkedZittingen(store, docs[|docs| - 1]);
    if op in CleanupTrace(store, pre) {
      CleanupTraceSound(store, pre, op);
      var i, k :| 0 <= i < |pre| && 0 <= k < |LinkedZittingen(store, pre[i])| &&
        op.zittingId == LinkedZittingen(store, pre[i])[k].zittingId;
      assert docs[i] == pre[i];
    } else {
      assert op in ZittingOps(zs);
      ZittingOpsShape(zs);
      var m :| 0 <= m < |ZittingOps(zs)| && ZittingOps(zs)[m] == op;
      var k := m / 2;
      assert m == 2 * k || m == 2 * k + 1;
      assert op.zittingId == zs[k].zittingId;
    }
  }

  // ---------------------------------------------------------------------
  // The republisher object

  class Republisher {
    /** The store the queries are sent to. */
    const store: Store
    /** `@manual_check`: records whose graph needs a look by hand. */
    var manualCheck: seq<DocRecord>
    /** `@published_status_no_publication`: chosen documents whose
        organisation has no linked session. */
    var publishedStatusNoPublication: seq<DocRecord>
    /** The removal updates issued so far, in order. */
    var cleanupLog: seq<CleanupOp>

    constructor(store: Store)
      ensures this.store == store
      ensures manualCheck == [] && publishedStatusNoPublication == [] && cleanupLog == []
    {
      this.store := store;
      manualCheck := [];
      publishedStatusNoPublication := [];
      cleanupLog := [];
    }

    /** `run`: choose the documents, then clean up their sessions. A raised
        duplicate-document error ends the run before any cleanup. */
    method Run() returns (r: Result<()>)
      modifies this
      ensures var s := ScanGraphs(store, store.graphs);
        manualCheck == old(manualCheck) + s.flagged &&
        (s.raised ==>
          r == Failure(DuplicateDocUri) &&
          publishedStatusNoPublication == old(publishedStatusNoPublication) &&
          cleanupLog == old(cleanupLog)) &&
        (!s.raised ==>
          r == Success(()) &&
          publishedStatusNoPublication == old(publishedStatusNoPublication) + Unlinked(store, s.docs) &&
          cleanupLog == old(cleanupLog) + CleanupTrace(store, s.docs))
    {
      var docsInfo := FindDocsToRepublish();
      match docsInfo
      case Failure(e) =>
        return Failure(e);
      case Success(docs) =>
        CleanupPublishedPage(docs);
        return Success(());
    }

    /** `find_docs_to_republish`. */
    method FindDocsToRepublish() returns (r: Result<seq<DocRecord>>)
      modifies this`manualCheck
      ensures var s := ScanGraphs(store, store.graphs);
        manualCheck == old(manualCheck) + s.flagged &&
        r == if s.raised then Failure(DuplicateDocUri) else Success(s.docs)
    {
      var graphs := store.graphs;
      ghost var flaggedBefore := manualCheck;
      var docsInfo: seq<DocRecord> := [];
      var i := 0;
      while i < |graphs|
        invariant 0 <= i <= |graphs|
        invariant !ScanGraphs(store, graphs[..i]).raised
        invariant docsInfo == ScanGraphs(store, graphs[..i]).docs
        invariant manualCheck == flaggedBefore + ScanGraphs(store, graphs[..i]).flagged
      {
        ScanGraphsStep(store, graphs, i, flaggedBefore);
        var triples := FindPublishedDocs(store, graphs[i]);
        if |triples| > 0 {
          var triple := FindSaneDocToPublish(triples);
          if triple.Failure? {
            ScanStopsAtRaise(store, graphs, i + 1);
            assert graphs[..|graphs|] == graphs;
            return Failure(triple.error);
          }
          if triple.value.Some? {
            docsInfo := docsInfo + [triple.value.value];
          }
        }
        i := i + 1;
      }
      assert graphs[..i] == graphs;
      return Success(docsInfo);
    }

    /** `find_sane_doc_to_publish`: the decision rule on one graph's
        documents, which flags the last record when the set needs a manual
        check. */
    method FindSaneDocToPublish(triples: seq<DocRecord>) returns (r: Result<Option<DocRecord>>)
      requires |triples| > 0
      modifies this`manualCheck
      ensures r == if Decide(triples) == DuplicateDoc then Failure(DuplicateDocUri)
                   else Success(Returned(Decide(triples)))
      ensures manualCheck == old(manualCheck) + Flagged(Decide(triples))
    {
      if |Uniq(DocIds(triples))| != |triples| {
        return Failure(DuplicateDocUri);
      }
      var last := triples[|triples| - 1];
      if StatusOf(last.status) == Goedgekeurd {
        return Success(None);
      }
      if StatusOf(last.status) == BesluitenlijstPubliek {
        if !AllSameDocs(triples) {
          manualCheck := manualCheck + [last];
          return Success(None);
        }
        return Success(Some(last));
      }
      var hasBesluitenlijst := FindStatus(triples, BesluitenlijstPubliek);
      if StatusOf(last.status) == AgendaPubliek && hasBesluitenlijst.None? {
        if !AllSameDocs(triples) {
          manualCheck := manualCheck + [last];
          return Success(None);
        }
        return Success(Some(last));
      }
      manualCheck := manualCheck + [last];
      return Success(None);
    }

    /** `cleanup_published_page`: for each chosen document, clean up every
        session linked to its organisation, or report the document when there
        is none. */
    method CleanupPublishedPage(docsInfo: seq<DocRecord>)
      modifies this`publishedStatusNoPublication, this`cleanupLog
      ensures publishedStatusNoPublication == old(publishedStatusNoPublication) + Unlinked(store, docsInfo)
      ensures cleanupLog == old(cleanupLog) + CleanupTrace(store, docsInfo)
    {
      ghost var unlinkedBefore, logBefore := publishedStatusNoPublication, cleanupLog;
      var i := 0;
      while i < |docsInfo|
        invariant 0 <= i <= |docsInfo|
        invariant publishedStatusNoPublication == unlinkedBefore + Unlinked(store, docsInfo[..i])
        invariant cleanupLog == logBefore + CleanupTrace(store, docsInfo[..i])
      {
        CleanupStep(store, docsInfo, i, logBefore, unlinkedBefore);
        var triple := docsInfo[i];
        var triples := LinkedZittingen(store, triple);
        if |triples| == 0 {
          publishedStatusNoPublication := publishedStatusNoPublication + [triple];
        } else {
          CleanupZittingen(triples);
        }
        i := i + 1;
      }
      assert docsInfo[..i] == docsInfo;
    }

    /** The loop of `cleanup_published_page` over one organisation's
        sessions: each is cleaned up in turn. */
    method CleanupZittingen(triples: seq<Zitting>)
      modifies this`cleanupLog
      ensures cleanupLog == old(cleanupLog) + ZittingOps(triples)
    {
      ghost var logBefore := cleanupLog;
      var j := 0;
      while j < |triples|
        invariant 0 <= j <= |triples|
        invariant cleanupLog == logBefore + ZittingOps(triples[..j])
      {
        ZittingOpsStep(triples, j, logBefore);
        CleanupZitting(triples[j]);
        j := j + 1;
      }
      assert triples[..j] == triples;
    }

    /** `cleanup_zitting`: both removals, full chain first. */
    method CleanupZitting(z: Zitting)
      modifies this`cleanupLog
      ensures cleanupLog == old(cleanupLog) + ZittingOps([z])
    {
      RemoveZittingWithBesluiten(z.zittingId);
      RemoveZittingWithAgendaOnly(z.zittingId);
    }

    /** `remove_zitting_with_besluiten`: the full-chain removal for one
        session. */
    method RemoveZittingWithBesluiten(zittingId: string)
      modifies this`cleanupLog
      ensures cleanupLog == old(cleanupLog) + [CleanupOp(WithBesluiten, zittingId)]
    {
      cleanupLog := cleanupLog + [CleanupOp(WithBesluiten, zittingId)];
    }

    /** `remove_zitting_with_agenda_only`: the agenda-only removal for one
        session. */
    method RemoveZittingWithAgendaOnly(zittingId: string)
      modifies this`cleanupLog
      ensures cleanupLog == old(cleanupLog) + [CleanupOp(AgendaOnly, zittingId)]
    {
      cleanupLog := cleanupLog + [CleanupOp(AgendaOnly, zittingId)];
    }
  }
}
