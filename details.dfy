/** The transaction line-item list (`DetailsView`): a line item as fetched,
    its joined transaction and package copied to the fields the rows read,
    and the view built over those rows. */
module Details {
  import opened ListOps
  import opened Views

  /** A JSON field that may be absent (`undefined`). */
  datatype Option<T> = None | Some(value: T)

  /** The joined transaction, as far as the rows read it. */
  datatype Transaksi = Transaksi(kodeInvoice: string)

  /** The joined package, as far as the rows read it. */
  datatype PaketRef = PaketRef(jenis: string)

  /** A line item: the backend's `transaksi` and `paket` joins, and the
      `id_transaksi` and `id_paket` fields the rows display. `qty` is a JSON
      number; only its integral values are modelled. */
  datatype Detail = Detail(
    id: string,
    transaksi: Option<Transaksi>,
    paket: Option<PaketRef>,
    idTransaksi: Option<Transaksi>,
    idPaket: Option<PaketRef>,
    qty: int,
    keterangan: string)

  /** `{ ...user, id_transaksi: user.transaksi, id_paket: user.paket }`: the
      two display fields take the joins (absent when the join is absent), and
      every other field is copied. */
  function LinkDetail(d: Detail): (e: Detail)
    ensures e.idTransaksi == d.transaksi && e.idPaket == d.paket
    ensures e.(idTransaksi := d.idTransaksi, idPaket := d.idPaket) == d
  {
    d.(idTransaksi := d.transaksi, idPaket := d.paket)
  }

  /** Linking an already linked item changes nothing. */
  lemma LinkDetailIdempotent(d: Detail)
    ensures LinkDetail(LinkDetail(d)) == LinkDetail(d)
  {
  }

  /** The fetched list mapped for display: same length and order, each item
      linked, and mapping it again changes nothing. */
  lemma DetailListLink(data: seq<Detail>)
    ensures |Map(data, LinkDetail)| == |data|
    ensures forall k :: 0 <= k < |data| ==>
      Map(data, LinkDetail)[k].id == data[k].id &&
      Map(data, LinkDetail)[k].idTransaksi == data[k].transaksi &&
      Map(data, LinkDetail)[k].idPaket == data[k].paket
    ensures Map(Map(data, LinkDetail), LinkDetail) == Map(data, LinkDetail)
  {
  }

  /** The view over line-item rows. */
  method NewDetailsView() returns (v: ListView<Detail>)
    ensures fresh(v) && fresh(v.table)
    ensures v.users == [] && v.filterName == [] && v.loading
    ensures forall d :: v.idOf(d) == d.id
    ensures forall d :: v.mapRow(d) == LinkDetail(d)
  {
    v := new ListView((d: Detail) => d.id, LinkDetail);
  }
}
