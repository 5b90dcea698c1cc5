/** The editor-document status vocabulary: the `DOCSTATES` table of the
    republisher, which maps a status name to the IRI the store uses, and the
    reverse lookup `DOCSTATES.invert[iri]` the decision rule reads statuses
    through. */
module DocStates {

  /** The four named statuses of the table, plus `Unmapped` for an IRI the
      table does not contain (the reverse lookup yields `nil` for it). */
  datatype Status = BesluitenlijstPubliek | Prullenbak | AgendaPubliek | Goedgekeurd | Unmapped

  const StatusBase: string := "http://mu.semte.ch/application/editor-document-statuses/"

  const BesluitenlijstPubliekIri: string := StatusBase + "b763390a63d548bb977fb4804293084a"
  const PrullenbakIri: string := StatusBase + "5A8304E8C093B00009000010"
  const AgendaPubliekIri: string := StatusBase + "627aec5d144c422bbd1077022c9b45d1"
  const GoedgekeurdIri: string := StatusBase + "c272d47d756d4aeaa0be72081f1389c6"

  /** `DOCSTATES`: status name to status IRI. */
  const DOCSTATES: map<string, string> :=
    map[
      "besluitenlijst publiek" := BesluitenlijstPubliekIri,
      "prullenbak" := PrullenbakIri,
      "agenda publiek" := AgendaPubliekIri,
      "goedgekeurd" := GoedgekeurdIri
    ]

  /** The key of a named status in `DOCSTATES`. */
  function Name(s: Status): (n: string)
    requires s != Unmapped
    ensures n in DOCSTATES
  {
    match s
    case BesluitenlijstPubliek => "besluitenlijst publiek"
    case Prullenbak => "prullenbak"
    case AgendaPubliek => "agenda publiek"
    case Goedgekeurd => "goedgekeurd"
  }

  /** `DOCSTATES.invert[iri]`: the status whose IRI is `iri`, or `Unmapped`
      when no entry of the table has that IRI. */
  function StatusOf(iri: string): (s: Status)
    ensures s != Unmapped <==> iri in DOCSTATES.Values
    ensures s != Unmapped ==> DOCSTATES[Name(s)] == iri
  {
    assert DOCSTATES.Values == {BesluitenlijstPubliekIri, PrullenbakIri, AgendaPubliekIri, GoedgekeurdIri} by {
      assert DOCSTATES["besluitenlijst publiek"] == BesluitenlijstPubliekIri;
      assert DOCSTATES["prullenbak"] == PrullenbakIri;
      assert DOCSTATES["agenda publiek"] == AgendaPubliekIri;
      assert DOCSTATES["goedgekeurd"] == GoedgekeurdIri;
    }
    if iri == BesluitenlijstPubliekIri then BesluitenlijstPubliek
    else if iri == PrullenbakIri then Prullenbak
    else if iri == AgendaPubliekIri then AgendaPubliek
    else if iri == GoedgekeurdIri then Goedgekeurd
    else Unmapped
  }

  /** The table is injective, so inverting it loses nothing: reading back the
      IRI of any name gives that name again. */
  lemma InvertRoundTrip(name: string)
    requires name in DOCSTATES
    ensures StatusOf(DOCSTATES[name]) != Unmapped
    ensures Name(StatusOf(DOCSTATES[name])) == name
  {
    var iri := DOCSTATES[name];
    assert iri[..|StatusBase|] == StatusBase;
    assert BesluitenlijstPubliekIri[|StatusBase|] == 'b';
    assert PrullenbakIri[|StatusBase|] == '5';
    assert AgendaPubliekIri[|StatusBase|] == '6';
    assert GoedgekeurdIri[|StatusBase|] == 'c';
  }
}
