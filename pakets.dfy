/** The package list (`PaketView`): a package row, the display label of its
    type code, and the view built over those rows. */
module Pakets {
  import opened ListOps
  import opened Views

  /** A service package as the list shows it. `harga` is a JSON number; only
      its integral values are modelled. */
  datatype Paket = Paket(id: string, namaPaket: string, jenis: string, harga: int)

  /** The five package type codes and their display labels. */
  const JenisLabels: map<string, string> := map[
    "kiloan" := "Kiloan",
    "bed_cover" := "Bed Cover",
    "selimut" := "Selimut",
    "lain" := "Lain",
    "kaos" := "Kaos"
  ]

  /** The label the list shows for a type code: the table's label for the
      five known codes, the empty string for anything else. */
  function JenisLabel(jenis: string): (text: string)
    ensures jenis in JenisLabels ==> text == JenisLabels[jenis]
    ensures jenis !in JenisLabels ==> text == ""
  {
    if jenis == "kiloan" then "Kiloan"
    else if jenis == "bed_cover" then "Bed Cover"
    else if jenis == "selimut" then "Selimut"
    else if jenis == "lain" then "Lain"
    else if jenis == "kaos" then "Kaos"
    else ""
  }

  /** Distinct known codes get distinct, non-empty labels, so the label
      still tells the type apart. */
  lemma JenisLabelInjective(a: string, b: string)
    requires a in JenisLabels && b in JenisLabels && a != b
    ensures JenisLabel(a) != JenisLabel(b)
    ensures JenisLabel(a) != ""
  {
  }

  /** No label is itself a code, so relabeling an already relabeled row
      erases its type. */
  lemma JenisLabelNotIdempotent(jenis: string)
    ensures JenisLabel(JenisLabel(jenis)) == ""
  {
    var text := JenisLabel(jenis);
    assert text !in JenisLabels by {
      assert text == "" || text == "Kiloan" || text == "Bed Cover"
        || text == "Selimut" || text == "Lain" || text == "Kaos";
    }
  }

  /** `{ ...user, jenis: <label> }`: only the type changes, to its label. */
  function RelabelPaket(p: Paket): (q: Paket)
    ensures q.(jenis := p.jenis) == p
    ensures q.jenis == JenisLabel(p.jenis)
    ensures q.jenis == "" || q.jenis in JenisLabels.Values
  {
    p.(jenis := JenisLabel(p.jenis))
  }

  /** The fetched list mapped for display: same length and order, each row
      with only its type relabeled. */
  lemma PaketListRelabel(data: seq<Paket>)
    ensures |Map(data, RelabelPaket)| == |data|
    ensures forall k :: 0 <= k < |data| ==>
      Map(data, RelabelPaket)[k].id == data[k].id &&
      Map(data, RelabelPaket)[k].namaPaket == data[k].namaPaket &&
      Map(data, RelabelPaket)[k].harga == data[k].harga &&
      Map(data, RelabelPaket)[k].jenis == JenisLabel(data[k].jenis)
  {
  }

  /** The view over package rows. */
  method NewPaketView() returns (v: ListView<Paket>)
    ensures fresh(v) && fresh(v.table)
    ensures v.users == [] && v.filterName == [] && v.loading
    ensures forall p :: v.idOf(p) == p.id
    ensures forall p :: v.mapRow(p) == RelabelPaket(p)
  {
    v := new ListView((p: Paket) => p.id, RelabelPaket);
  }
}
