/**
 * Wire types of the QMI protocol as the daemon lays them out in memory:
 * fixed-width little-endian integers, the sizes of the QMUX header and of
 * the two service-header variants, and the type-length-value (TLV) record.
 *
 * The header declarations themselves (qmi_hdrs.h, qmi_shared.h) are not
 * part of this model; the sizes and offsets below are assumed, as these
 * packed layouts:
 *   qmux_hdr_t     { type (the 1-byte marker), length: u16, control_flags,
 *                    service_type, client_id }                     6 bytes
 *   qmi_hdr_ctl_t  { control_flags, transaction_id: u8,
 *                    message_id: u16, length: u16 }                6 bytes
 *   qmi_hdr_gen_t  { control_flags, transaction_id: u16,
 *                    message_id: u16, length: u16 }                7 bytes
 *   qmi_tlv_t      { type, length: u16 }                           3 bytes
 */
module QmiWire {

  /** uint8_t */
  type uint8 = x: int | 0 <= x < 0x100

  /** uint16_t */
  type uint16 = x: int | 0 <= x < 0x1_0000

  datatype Option<T> = None | Some(value: T)

  // ---------------------------------------------------------------------
  // Constants of the QMUX layer
  // ---------------------------------------------------------------------

  /** Interface type stored in the marker byte that starts every message. */
  const QMUX_IF_TYPE: uint8 := 0x01

  /** The control service is numerically zero; it selects the CTL header. */
  const QMI_SERVICE_CTL: uint8 := 0x00
  const QMI_SERVICE_NAS: uint8 := 0x03

  /** sizeof(qmux_hdr_t), the marker byte included. */
  const QMUX_HDR_SIZE: nat := 6
  /** sizeof(qmi_hdr_ctl_t) */
  const QMI_HDR_CTL_SIZE: nat := 6
  /** sizeof(qmi_hdr_gen_t) */
  const QMI_HDR_GEN_SIZE: nat := 7
  /** sizeof(qmi_tlv_t) */
  const QMI_TLV_HDR_SIZE: nat := 3
  /** Size of every message buffer the daemon allocates. */
  const QMI_DEFAULT_BUF_SIZE: nat := 4096

  /** Byte offsets of the QMUX fields, counted from the marker. */
  const QMUX_LENGTH_OFFSET: nat := 1
  const QMUX_FLAGS_OFFSET: nat := 3
  const QMUX_SERVICE_OFFSET: nat := 4
  const QMUX_CLIENT_OFFSET: nat := 5

  // ---------------------------------------------------------------------
  // Little-endian 16-bit integers (htole16 / le16toh)
  // ---------------------------------------------------------------------

  function Lo(n: nat): uint8 { n % 0x100 }

  function Hi(n: nat): uint8 { (n / 0x100) % 0x100 }

  /** The two bytes of htole16(n); like a C uint16_t, keeps n modulo 2^16. */
  function Le16Bytes(n: nat): (r: seq<uint8>)
    ensures |r| == 2
  {
    [Lo(n), Hi(n)]
  }

  /** le16toh of the two bytes at offset k. */
  function ReadLe16(s: seq<uint8>, k: nat): uint16
    requires k + 2 <= |s|
  {
    s[k] as int + 0x100 * (s[k + 1] as int)
  }

  /** Writing n and reading it back yields n truncated to 16 bits. */
  lemma Le16RoundTrip(n: nat)
    ensures ReadLe16(Le16Bytes(n), 0) == n % 0x1_0000
    ensures n < 0x1_0000 ==> ReadLe16(Le16Bytes(n), 0) == n
  {
    var q := n / 0x100;
    assert n == 0x100 * q + Lo(n);
    assert q == 0x100 * (q / 0x100) + Hi(n);
    assert n == 0x1_0000 * (q / 0x100) + (Lo(n) + 0x100 * Hi(n));
    assert 0 <= Lo(n) + 0x100 * Hi(n) < 0x1_0000;
  }

  /** Reading two bytes and writing them back yields the same bytes. */
  lemma ReadLe16Bytes(s: seq<uint8>, k: nat)
    requires k + 2 <= |s|
    ensures Le16Bytes(ReadLe16(s, k)) == s[k..k + 2]
  {
    var v := ReadLe16(s, k);
    assert v / 0x100 == s[k + 1];
  }

  // ---------------------------------------------------------------------
  // TLV records
  // ---------------------------------------------------------------------

  datatype Tlv = Tlv(tag: uint8, value: seq<uint8>)

  /** A TLV whose value length fits the 16-bit length field. */
  predicate TlvFitsLength(t: Tlv) { |t.value| < 0x1_0000 }

  predicate AllFitLength(ts: seq<Tlv>)
  {
    forall k :: 0 <= k < |ts| ==> TlvFitsLength(ts[k])
  }

  function TlvSize(t: Tlv): nat { QMI_TLV_HDR_SIZE + |t.value| }

  /** The wire image of one TLV: type byte, LE length, value bytes. */
  function TlvBytes(t: Tlv): (r: seq<uint8>)
    ensures |r| == TlvSize(t)
  {
    [t.tag] + Le16Bytes(|t.value|) + t.value
  }

  /** Number of payload bytes a chain of TLVs occupies. */
  function ChainSize(ts: seq<Tlv>): nat
  {
    if ts == [] then 0 else TlvSize(ts[0]) + ChainSize(ts[1..])
  }

  /** The records of a chain packed contiguously in order, without padding. */
  function ChainBytes(ts: seq<Tlv>): (r: seq<uint8>)
    ensures |r| == ChainSize(ts)
  {
    if ts == [] then [] else TlvBytes(ts[0]) + ChainBytes(ts[1..])
  }

  /** Appending a record to a chain appends its bytes to the chain's bytes. */
  lemma {:induction false} ChainAppend(ts: seq<Tlv>, t: Tlv)
    ensures ChainSize(ts + [t]) == ChainSize(ts) + TlvSize(t)
    ensures ChainBytes(ts + [t]) == ChainBytes(ts) + TlvBytes(t)
  {
    if ts == [] {
      assert ts + [t] == [t];
      assert [t][1..] == [];
    } else {
      assert (ts + [t])[0] == ts[0];
      assert (ts + [t])[1..] == ts[1..] + [t];
      ChainAppend(ts[1..], t);
    }
  }
}
