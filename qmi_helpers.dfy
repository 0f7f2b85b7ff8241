/**
 * The QMI message codec of qmi_helpers.c: create_qmi_request writes the
 * QMUX header and one of the two service headers into a caller's byte
 * buffer, add_tlv appends one TLV and keeps both length fields in step, and
 * parse_qmi walks the TLV chain of a message (its printing is not modelled).
 *
 * The buffer is an array<uint8> changed in place. What the methods leave in
 * it is stated through specification functions on its contents: Encode gives
 * the wire image of a request, AppendImage the effect of one append, and
 * WalkFrom the records the walk visits.
 */
module QmiHelpers {
  import opened QmiWire

  // ---------------------------------------------------------------------
  // Header layout
  // ---------------------------------------------------------------------

  /** sizeof the service header selected by the service type. */
  function ServiceHeaderSize(service: uint8): nat
  {
    if service == QMI_SERVICE_CTL then QMI_HDR_CTL_SIZE else QMI_HDR_GEN_SIZE
  }

  /** Bytes before the first TLV, the marker included. */
  function HeaderSize(service: uint8): nat
  {
    QMUX_HDR_SIZE + ServiceHeaderSize(service)
  }

  /** The QMUX length of a message without TLVs: the marker is not counted. */
  function EmptyQmuxLength(service: uint8): nat
  {
    QMUX_HDR_SIZE - 1 + ServiceHeaderSize(service)
  }

  /** Offsets of the service-header fields, counted from the marker. */
  const QMI_HDR_FLAGS_OFFSET: nat := QMUX_HDR_SIZE
  const QMI_HDR_TRANSACTION_OFFSET: nat := QMUX_HDR_SIZE + 1

  function MessageIdOffset(service: uint8): nat
  {
    if service == QMI_SERVICE_CTL then QMUX_HDR_SIZE + 2 else QMUX_HDR_SIZE + 3
  }

  function PayloadLengthOffset(service: uint8): nat
  {
    if service == QMI_SERVICE_CTL then QMUX_HDR_SIZE + 4 else QMUX_HDR_SIZE + 5
  }

  /** The buffer is long enough for the header its service type selects. */
  predicate HasHeader(s: seq<uint8>)
  {
    QMUX_HDR_SIZE <= |s| && HeaderSize(s[QMUX_SERVICE_OFFSET]) <= |s|
  }

  function QmuxLength(s: seq<uint8>): uint16
    requires QMUX_LENGTH_OFFSET + 2 <= |s|
  {
    ReadLe16(s, QMUX_LENGTH_OFFSET)
  }

  function TransactionIdField(s: seq<uint8>): uint16
    requires HasHeader(s)
  {
    if s[QMUX_SERVICE_OFFSET] == QMI_SERVICE_CTL then s[QMI_HDR_TRANSACTION_OFFSET]
    else ReadLe16(s, QMI_HDR_TRANSACTION_OFFSET)
  }

  function MessageIdField(s: seq<uint8>): uint16
    requires HasHeader(s)
  {
    ReadLe16(s, MessageIdOffset(s[QMUX_SERVICE_OFFSET]))
  }

  function PayloadLength(s: seq<uint8>): uint16
    requires HasHeader(s)
  {
    ReadLe16(s, PayloadLengthOffset(s[QMUX_SERVICE_OFFSET]))
  }

  /** The QMUX length counts the headers (marker excluded) and the payload. */
  predicate LengthInvariant(s: seq<uint8>)
  {
    HasHeader(s) && QmuxLength(s) == EmptyQmuxLength(s[QMUX_SERVICE_OFFSET]) + PayloadLength(s)
  }

  // ---------------------------------------------------------------------
  // Requests and their wire image
  // ---------------------------------------------------------------------

  datatype Request = Request(service: uint8, clientId: uint8, transactionId: uint16,
                             messageId: uint16, tlvs: seq<Tlv>)

  /** Both length fields fit 16 bits. */
  predicate Sized(m: Request)
  {
    EmptyQmuxLength(m.service) + ChainSize(m.tlvs) < 0x1_0000 && AllFitLength(m.tlvs)
  }

  /** The header bytes of a request whose TLVs occupy `payload` bytes. */
  function HeaderBytes(service: uint8, clientId: uint8, transactionId: uint16,
                       messageId: uint16, payload: nat): (r: seq<uint8>)
    ensures |r| == HeaderSize(service)
  {
    var qlen := EmptyQmuxLength(service) + payload;
    if service == QMI_SERVICE_CTL then
      [QMUX_IF_TYPE, Lo(qlen), Hi(qlen), 0, service, clientId,
       0, Lo(transactionId), Lo(messageId), Hi(messageId), Lo(payload), Hi(payload)]
    else
      [QMUX_IF_TYPE, Lo(qlen), Hi(qlen), 0, service, clientId,
       0, Lo(transactionId), Hi(transactionId), Lo(messageId), Hi(messageId), Lo(payload), Hi(payload)]
  }

  /** The bytes of a request, from the marker to the end of its last TLV. */
  function Encode(m: Request): (r: seq<uint8>)
    ensures |r| == HeaderSize(m.service) + ChainSize(m.tlvs)
  {
    HeaderBytes(m.service, m.clientId, m.transactionId, m.messageId, ChainSize(m.tlvs))
      + ChainBytes(m.tlvs)
  }

  /** The buffer starts with the wire image of m. */
  predicate Holds(s: seq<uint8>, m: Request)
  {
    |Encode(m)| <= |s| && s[..|Encode(m)|] == Encode(m)
  }

  /** What a reader gets back: the CTL header keeps one byte of the id. */
  function WireForm(m: Request): Request
  {
    if m.service == QMI_SERVICE_CTL then m.(transactionId := Lo(m.transactionId)) else m
  }

  /** Every header field of a buffer holding a request reads back as written. */
  lemma EncodedFields(s: seq<uint8>, m: Request)
    requires Holds(s, m) && Sized(m)
    ensures HasHeader(s) && LengthInvariant(s)
    ensures s[0] == QMUX_IF_TYPE && s[QMUX_FLAGS_OFFSET] == 0 && s[QMI_HDR_FLAGS_OFFSET] == 0
    ensures s[QMUX_SERVICE_OFFSET] == m.service && s[QMUX_CLIENT_OFFSET] == m.clientId
    ensures QmuxLength(s) == EmptyQmuxLength(m.service) + ChainSize(m.tlvs)
    ensures TransactionIdField(s) == WireForm(m).transactionId
    ensures MessageIdField(s) == m.messageId
    ensures PayloadLength(s) == ChainSize(m.tlvs)
    ensures s[HeaderSize(m.service)..|Encode(m)|] == ChainBytes(m.tlvs)
  {
    var p := ChainSize(m.tlvs);
    var h := HeaderBytes(m.service, m.clientId, m.transactionId, m.messageId, p);
    var e := Encode(m);
    assert e == h + ChainBytes(m.tlvs);
    assert s[..|h|] == h by {
      assert s[..|h|] == e[..|h|];
    }
    HeaderFields(m.service, m.clientId, m.transactionId, m.messageId, p);
    PrefixFields(s, h);
    assert s[HeaderSize(m.service)..|e|] == e[|h|..];
  }

  /** The fields of a header as HeaderBytes lays it out. */
  lemma HeaderFields(service: uint8, clientId: uint8, transactionId: uint16, messageId: uint16, p: nat)
    requires EmptyQmuxLength(service) + p < 0x1_0000
    ensures var h := HeaderBytes(service, clientId, transactionId, messageId, p);
      HasHeader(h) && |h| == HeaderSize(h[QMUX_SERVICE_OFFSET]) &&
      h[0] == QMUX_IF_TYPE && h[QMUX_FLAGS_OFFSET] == 0 && h[QMI_HDR_FLAGS_OFFSET] == 0 &&
      h[QMUX_SERVICE_OFFSET] == service && h[QMUX_CLIENT_OFFSET] == clientId &&
      QmuxLength(h) == EmptyQmuxLength(service) + p &&
      TransactionIdField(h) == (if service == QMI_SERVICE_CTL then Lo(transactionId) else transactionId) &&
      MessageIdField(h) == messageId && PayloadLength(h) == p
  {
    Le16RoundTrip(EmptyQmuxLength(service) + p);
    Le16RoundTrip(p);
    Le16RoundTrip(messageId);
    Le16RoundTrip(transactionId);
  }

  /** A buffer that starts with a header reads the same header fields. */
  lemma PrefixFields(s: seq<uint8>, h: seq<uint8>)
    requires HasHeader(h) && |h| == HeaderSize(h[QMUX_SERVICE_OFFSET]) && |h| <= |s| && s[..|h|] == h
    ensures HasHeader(s) && s[QMUX_SERVICE_OFFSET] == h[QMUX_SERVICE_OFFSET]
    ensures forall k :: 0 <= k < |h| ==> s[k] == h[k]
    ensures QmuxLength(s) == QmuxLength(h) && TransactionIdField(s) == TransactionIdField(h)
    ensures MessageIdField(s) == MessageIdField(h) && PayloadLength(s) == PayloadLength(h)
    ensures LengthInvariant(s) <==> LengthInvariant(h)
  {
    forall k | 0 <= k < |h| ensures s[k] == h[k] {
      assert s[..|h|][k] == s[k];
    }
  }

  // ---------------------------------------------------------------------
  // create_qmi_request
  // ---------------------------------------------------------------------

  /** The bytes of s with htole16(v) stored at offset k. */
  function SetLe16(s: seq<uint8>, k: nat, v: nat): (r: seq<uint8>)
    requires k + 2 <= |s|
    ensures |r| == |s| && ReadLe16(r, k) == v % 0x1_0000
  {
    Le16RoundTrip(v);
    s[k := Lo(v)][k + 1 := Hi(v)]
  }

  /** Stores htole16(v) at offset k. */
  method PutLe16(buf: array<uint8>, k: nat, v: nat)
    requires k + 2 <= buf.Length
    modifies buf
    ensures buf[..] == SetLe16(old(buf[..]), k, v)
  {
    buf[k] := Lo(v);
    buf[k + 1] := Hi(v);
  }

  /** The service header create_qmi_request writes: no flags, the ids, a zero length. */
  function ServiceHeaderBytes(service: uint8, transactionId: uint16, messageId: uint16): (r: seq<uint8>)
    ensures |r| == ServiceHeaderSize(service)
  {
    if service == QMI_SERVICE_CTL then
      [0, Lo(transactionId), Lo(messageId), Hi(messageId), 0, 0]
    else
      [0, Lo(transactionId), Hi(transactionId), Lo(messageId), Hi(messageId), 0, 0]
  }

  /** The header of a request without TLVs is the QMUX header followed by the service header. */
  lemma HeaderBytesSplit(service: uint8, clientId: uint8, transactionId: uint16, messageId: uint16)
    ensures HeaderBytes(service, clientId, transactionId, messageId, 0)
         == [QMUX_IF_TYPE, Lo(EmptyQmuxLength(service)), Hi(EmptyQmuxLength(service)), 0, service, clientId]
            + ServiceHeaderBytes(service, transactionId, messageId)
  {
  }

  /** The QMUX half of create_qmi_request: length, marker, flags, service, client. */
  method PutQmuxHeader(buf: array<uint8>, service: uint8, clientId: uint8)
    requires QMUX_HDR_SIZE <= buf.Length
    modifies buf
    ensures buf[..QMUX_HDR_SIZE]
         == [QMUX_IF_TYPE, Lo(EmptyQmuxLength(service)), Hi(EmptyQmuxLength(service)), 0, service, clientId]
    ensures buf[QMUX_HDR_SIZE..] == old(buf[QMUX_HDR_SIZE..])
  {
    if service == QMI_SERVICE_CTL {
      PutLe16(buf, QMUX_LENGTH_OFFSET, QMUX_HDR_SIZE - 1 + QMI_HDR_CTL_SIZE);
    } else {
      PutLe16(buf, QMUX_LENGTH_OFFSET, QMUX_HDR_SIZE - 1 + QMI_HDR_GEN_SIZE);
    }
    buf[0] := QMUX_IF_TYPE;
    buf[QMUX_FLAGS_OFFSET] := 0;
    buf[QMUX_SERVICE_OFFSET] := service;
    buf[QMUX_CLIENT_OFFSET] := clientId;
  }

  /** The service-header half of create_qmi_request, in the layout the service selects. */
  method PutServiceHeader(buf: array<uint8>, service: uint8, transactionId: uint16, messageId: uint16)
    requires HeaderSize(service) <= buf.Length
    modifies buf
    ensures buf[..QMUX_HDR_SIZE] == old(buf[..QMUX_HDR_SIZE])
    ensures buf[QMUX_HDR_SIZE..HeaderSize(service)] == ServiceHeaderBytes(service, transactionId, messageId)
    ensures buf[HeaderSize(service)..] == old(buf[HeaderSize(service)..])
  {
    if service == QMI_SERVICE_CTL {
      buf[QMI_HDR_FLAGS_OFFSET] := 0;
      buf[QMI_HDR_TRANSACTION_OFFSET] := Lo(transactionId);
      PutLe16(buf, QMUX_HDR_SIZE + 2, messageId);
      PutLe16(buf, QMUX_HDR_SIZE + 4, 0);
    } else {
      buf[QMI_HDR_FLAGS_OFFSET] := 0;
      PutLe16(buf, QMI_HDR_TRANSACTION_OFFSET, transactionId);
      PutLe16(buf, QMUX_HDR_SIZE + 3, messageId);
      PutLe16(buf, QMUX_HDR_SIZE + 5, 0);
    }
  }

  /**
   * Writes the QMUX header and the service header of a request without
   * TLVs; the bytes after the header are left as they were.
   */
  method CreateRequest(buf: array<uint8>, service: uint8, clientId: uint8,
                       transactionId: uint16, messageId: uint16)
    requires HeaderSize(service) <= buf.Length
    modifies buf
    ensures Holds(buf[..], Request(service, clientId, transactionId, messageId, []))
    ensures buf[HeaderSize(service)..] == old(buf[..])[HeaderSize(service)..]
  {
    ghost var s0 := buf[..];
    PutQmuxHeader(buf, service, clientId);
    ghost var s1 := buf[..];
    PutServiceHeader(buf, service, transactionId, messageId);
    ghost var s2 := buf[..];
    ghost var hs := HeaderSize(service);
    assert s2[..hs] == s2[..QMUX_HDR_SIZE] + s2[QMUX_HDR_SIZE..hs];
    HeaderBytesSplit(service, clientId, transactionId, messageId);
    ghost var m := Request(service, clientId, transactionId, messageId, []);
    assert Encode(m) == HeaderBytes(service, clientId, transactionId, messageId, 0);
    assert s2[hs..] == s1[hs..] by {
      assert s1[hs..] == s1[QMUX_HDR_SIZE..][hs - QMUX_HDR_SIZE..];
    }
    assert s1[hs..] == s0[hs..] by {
      assert s1[hs..] == s1[QMUX_HDR_SIZE..][hs - QMUX_HDR_SIZE..];
      assert s0[hs..] == s0[QMUX_HDR_SIZE..][hs - QMUX_HDR_SIZE..];
    }
  }

  // ---------------------------------------------------------------------
  // add_tlv
  // ---------------------------------------------------------------------

  /** Offset of the next TLV: the QMUX length plus the uncounted marker. */
  function TlvOffset(s: seq<uint8>): nat
    requires QMUX_LENGTH_OFFSET + 2 <= |s|
  {
    QmuxLength(s) + 1
  }

  /**
   * add_tlv is handed a default-size buffer whose header create_qmi_request
   * wrote, so the next TLV starts after that header.
   */
  predicate AddTlvReady(s: seq<uint8>)
  {
    QMI_DEFAULT_BUF_SIZE <= |s| && HeaderSize(s[QMUX_SERVICE_OFFSET]) <= TlvOffset(s)
  }

  /** The assertion of add_tlv: the grown message stays below the buffer size. */
  predicate TlvFits(s: seq<uint8>, length: nat)
    requires QMUX_LENGTH_OFFSET + 2 <= |s|
  {
    QmuxLength(s) + length + QMI_TLV_HDR_SIZE < QMI_DEFAULT_BUF_SIZE
  }

  /** The two QMUX length bytes and the two payload length bytes. */
  predicate IsLengthByte(service: uint8, k: nat)
  {
    k == QMUX_LENGTH_OFFSET || k == QMUX_LENGTH_OFFSET + 1 ||
    k == PayloadLengthOffset(service) || k == PayloadLengthOffset(service) + 1
  }

  /** The bytes of s with b written over them from offset off on. */
  function Splice(s: seq<uint8>, off: nat, b: seq<uint8>): (r: seq<uint8>)
    requires off + |b| <= |s|
    ensures |r| == |s| && r[off..off + |b|] == b
  {
    var r := s[..off] + b + s[off + |b|..];
    assert r[off..off + |b|] == b;
    r
  }

  /** SetLe16 leaves every other byte alone. */
  lemma SetLe16Other(s: seq<uint8>, k: nat, v: nat, j: nat)
    requires k + 2 <= |s| && j < |s| && j != k && j != k + 1
    ensures SetLe16(s, k, v)[j] == s[j]
  {
  }

  /** Splice leaves every byte outside the spliced range alone. */
  lemma SpliceOther(s: seq<uint8>, off: nat, b: seq<uint8>, j: nat)
    requires off + |b| <= |s| && j < |s| && !(off <= j < off + |b|)
    ensures Splice(s, off, b)[j] == s[j]
  {
  }

  /** The buffer after add_tlv appended t. */
  function AppendImage(s: seq<uint8>, t: Tlv): (r: seq<uint8>)
    requires AddTlvReady(s) && TlvFits(s, |t.value|)
    ensures |r| == |s|
  {
    var w := Splice(s, TlvOffset(s), TlvBytes(t));
    var w' := SetLe16(w, QMUX_LENGTH_OFFSET, QmuxLength(s) + TlvSize(t));
    SetLe16(w', PayloadLengthOffset(s[QMUX_SERVICE_OFFSET]), PayloadLength(s) + TlvSize(t))
  }

  /** A byte of the appended image other than a length byte: from t or unchanged. */
  lemma AppendImageAt(s: seq<uint8>, t: Tlv, j: nat)
    requires AddTlvReady(s) && TlvFits(s, |t.value|)
    requires j < |s| && !IsLengthByte(s[QMUX_SERVICE_OFFSET], j)
    ensures AppendImage(s, t)[j]
         == if TlvOffset(s) <= j < TlvOffset(s) + TlvSize(t) then TlvBytes(t)[j - TlvOffset(s)] else s[j]
  {
    var off := TlvOffset(s);
    var tb := TlvBytes(t);
    var w := Splice(s, off, tb);
    var w' := SetLe16(w, QMUX_LENGTH_OFFSET, QmuxLength(s) + TlvSize(t));
    var po := PayloadLengthOffset(s[QMUX_SERVICE_OFFSET]);
    SetLe16Other(w', po, PayloadLength(s) + TlvSize(t), j);
    SetLe16Other(w, QMUX_LENGTH_OFFSET, QmuxLength(s) + TlvSize(t), j);
    if off <= j < off + TlvSize(t) {
      assert w[j] == w[off..off + |tb|][j - off];
    } else {
      SpliceOther(s, off, tb, j);
    }
  }

  /** The length fields of the appended image, and its unchanged service type. */
  lemma AppendImageLengths(s: seq<uint8>, t: Tlv)
    requires AddTlvReady(s) && TlvFits(s, |t.value|)
    ensures var r := AppendImage(s, t);
      r[QMUX_SERVICE_OFFSET] == s[QMUX_SERVICE_OFFSET] &&
      QmuxLength(r) == QmuxLength(s) + TlvSize(t) &&
      PayloadLength(r) == (PayloadLength(s) + TlvSize(t)) % 0x1_0000
  {
    var service := s[QMUX_SERVICE_OFFSET];
    var po := PayloadLengthOffset(service);
    var q := QmuxLength(s) + TlvSize(t);
    var p := PayloadLength(s) + TlvSize(t);
    var w := Splice(s, TlvOffset(s), TlvBytes(t));
    var r := AppendImage(s, t);
    AppendImageIs(s, t, TlvOffset(s), q, po, p);
    assert po + 2 <= HeaderSize(service) <= TlvOffset(s);
    SpliceOther(s, TlvOffset(s), TlvBytes(t), QMUX_SERVICE_OFFSET);
    assert q < QMI_DEFAULT_BUF_SIZE;
    StoredLengths(w, q, po, p, r);
    assert HasHeader(r);
  }

  /** Storing the two lengths leaves the service byte and reads back both values. */
  lemma StoredLengths(w: seq<uint8>, q: nat, po: nat, p: nat, r: seq<uint8>)
    requires QMUX_SERVICE_OFFSET < po && po + 2 <= |w| && q < 0x1_0000
    requires r == SetLe16(SetLe16(w, QMUX_LENGTH_OFFSET, q), po, p)
    ensures r[QMUX_SERVICE_OFFSET] == w[QMUX_SERVICE_OFFSET]
    ensures ReadLe16(r, QMUX_LENGTH_OFFSET) == q && ReadLe16(r, po) == p % 0x1_0000
  {
    var w' := SetLe16(w, QMUX_LENGTH_OFFSET, q);
    SetLe16Other(w, QMUX_LENGTH_OFFSET, q, QMUX_SERVICE_OFFSET);
    SetLe16Other(w', po, p, QMUX_SERVICE_OFFSET);
    SetLe16Other(w', po, p, QMUX_LENGTH_OFFSET);
    SetLe16Other(w', po, p, QMUX_LENGTH_OFFSET + 1);
    assert ReadLe16(r, QMUX_LENGTH_OFFSET) == ReadLe16(w', QMUX_LENGTH_OFFSET);
  }

  /**
   * What add_tlv leaves: t at the old end of the message and both length
   * fields grown by its size (the payload length as a 16-bit field), the
   * buffer still ready for the next append.
   */
  lemma AppendImageFields(s: seq<uint8>, t: Tlv)
    requires AddTlvReady(s) && TlvFits(s, |t.value|)
    ensures var r := AppendImage(s, t);
      AddTlvReady(r) && r[TlvOffset(s)..TlvOffset(s) + TlvSize(t)] == TlvBytes(t) &&
      QmuxLength(r) == QmuxLength(s) + TlvSize(t) &&
      PayloadLength(r) == (PayloadLength(s) + TlvSize(t)) % 0x1_0000 &&
      (LengthInvariant(s) ==> LengthInvariant(r))
  {
    var off := TlvOffset(s);
    var r := AppendImage(s, t);
    AppendImageLengths(s, t);
    assert PayloadLengthOffset(s[QMUX_SERVICE_OFFSET]) + 2 <= off;
    forall j | off <= j < off + TlvSize(t) ensures r[j] == TlvBytes(t)[j - off] {
      AppendImageAt(s, t, j);
    }
    assert r[off..off + TlvSize(t)] == TlvBytes(t);
    LengthsGrow(s, r, TlvSize(t));
  }

  /** Growing both length fields by the same amount keeps them in step. */
  lemma LengthsGrow(s: seq<uint8>, r: seq<uint8>, d: nat)
    requires HasHeader(s) && |r| == |s| && r[QMUX_SERVICE_OFFSET] == s[QMUX_SERVICE_OFFSET]
    requires QmuxLength(r) == QmuxLength(s) + d
    requires PayloadLength(r) == (PayloadLength(s) + d) % 0x1_0000
    ensures LengthInvariant(s) ==> LengthInvariant(r)
  {
    if LengthInvariant(s) {
      var p := PayloadLength(s) + d;
      assert p < 0x1_0000;
      assert p % 0x1_0000 == p;
    }
  }

  /** add_tlv changes no byte other than the two length fields and the new record. */
  lemma AppendImageFrame(s: seq<uint8>, t: Tlv)
    requires AddTlvReady(s) && TlvFits(s, |t.value|)
    ensures forall k :: 0 <= k < TlvOffset(s) && !IsLengthByte(s[QMUX_SERVICE_OFFSET], k) ==>
      AppendImage(s, t)[k] == s[k]
    ensures forall k :: TlvOffset(s) + TlvSize(t) <= k < |s| ==> AppendImage(s, t)[k] == s[k]
  {
    forall k | 0 <= k < TlvOffset(s) && !IsLengthByte(s[QMUX_SERVICE_OFFSET], k)
      ensures AppendImage(s, t)[k] == s[k]
    {
      AppendImageAt(s, t, k);
    }
    forall k | TlvOffset(s) + TlvSize(t) <= k < |s| ensures AppendImage(s, t)[k] == s[k] {
      assert !IsLengthByte(s[QMUX_SERVICE_OFFSET], k);
      AppendImageAt(s, t, k);
    }
  }

  /**
   * Appends one TLV at offset qmux.length + 1 and grows both length fields
   * by its size. `appended` is false exactly when the assertion of add_tlv
   * fails (the process would abort); nothing is then written.
   */
  method AddTlv(buf: array<uint8>, tag: uint8, value: seq<uint8>) returns (appended: bool)
    requires AddTlvReady(buf[..]) && |value| < 0x1_0000
    modifies buf
    ensures appended == TlvFits(old(buf[..]), |value|)
    ensures appended ==> buf[..] == AppendImage(old(buf[..]), Tlv(tag, value))
    ensures !appended ==> buf[..] == old(buf[..])
  {
    ghost var s := buf[..];
    var qlen := buf[1] as int + 0x100 * (buf[2] as int);
    assert qlen == QmuxLength(s);
    if !(qlen + |value| + QMI_TLV_HDR_SIZE < QMI_DEFAULT_BUF_SIZE) {
      return false;
    }
    var off := qlen + 1;
    ghost var t := Tlv(tag, value);
    buf[off] := tag;
    PutLe16(buf, off + 1, |value|);
    forall k | 0 <= k < |value| {
      buf[off + QMI_TLV_HDR_SIZE + k] := value[k];
    }
    SpliceTlv(s, buf[..], off, t);
    ghost var w := buf[..];
    SpliceOther(s, off, TlvBytes(t), QMUX_LENGTH_OFFSET);
    SpliceOther(s, off, TlvBytes(t), QMUX_LENGTH_OFFSET + 1);
    SpliceOther(s, off, TlvBytes(t), QMUX_SERVICE_OFFSET);
    var newLen := buf[1] as int + 0x100 * (buf[2] as int) + QMI_TLV_HDR_SIZE + |value|;
    PutLe16(buf, QMUX_LENGTH_OFFSET, newLen);
    ghost var w' := buf[..];
    SetLe16Other(w, QMUX_LENGTH_OFFSET, newLen, QMUX_SERVICE_OFFSET);
    var po := if buf[QMUX_SERVICE_OFFSET] == QMI_SERVICE_CTL then QMUX_HDR_SIZE + 4 else QMUX_HDR_SIZE + 5;
    assert po == PayloadLengthOffset(s[QMUX_SERVICE_OFFSET]) && po + 2 <= off;
    SpliceOther(s, off, TlvBytes(t), po);
    SpliceOther(s, off, TlvBytes(t), po + 1);
    SetLe16Other(w, QMUX_LENGTH_OFFSET, newLen, po);
    SetLe16Other(w, QMUX_LENGTH_OFFSET, newLen, po + 1);
    var payload := buf[po] as int + 0x100 * (buf[po + 1] as int) + QMI_TLV_HDR_SIZE + |value|;
    PutLe16(buf, po, payload);
    AppendImageIs(s, t, off, newLen, po, payload);
    appended := true;
  }

  /** The bytes the three writes of add_tlv leave are t spliced in at off. */
  lemma SpliceTlv(s: seq<uint8>, r: seq<uint8>, off: nat, t: Tlv)
    requires |r| == |s| && off + TlvSize(t) <= |s|
    requires r[off] == t.tag && r[off + 1] == Lo(|t.value|) && r[off + 2] == Hi(|t.value|)
    requires forall k :: 0 <= k < |t.value| ==> r[off + QMI_TLV_HDR_SIZE + k] == t.value[k]
    requires forall j :: 0 <= j < |s| && !(off <= j < off + TlvSize(t)) ==> r[j] == s[j]
    ensures r == Splice(s, off, TlvBytes(t))
  {
    var w := Splice(s, off, TlvBytes(t));
    forall j | 0 <= j < |s| ensures r[j] == w[j] {
      if off <= j < off + TlvSize(t) {
        assert w[j] == w[off..off + TlvSize(t)][j - off] == TlvBytes(t)[j - off];
      }
    }
  }

  /** Storing into the header part of x + y leaves y alone. */
  lemma SetLe16Prefix(x: seq<uint8>, y: seq<uint8>, k: nat, v: nat)
    requires k + 2 <= |x|
    ensures SetLe16(x + y, k, v) == SetLe16(x, k, v) + y
  {
    assert (x + y)[k := Lo(v)][k + 1 := Hi(v)] == x[k := Lo(v)][k + 1 := Hi(v)] + y;
  }

  /** Splicing at the end of x replaces the front of y. */
  lemma SpliceAfter(x: seq<uint8>, y: seq<uint8>, b: seq<uint8>)
    requires |b| <= |y|
    ensures Splice(x + y, |x|, b) == x + b + y[|b|..]
  {
    assert (x + y)[..|x|] == x;
    assert (x + y)[|x| + |b|..] == y[|b|..];
  }

  /** Growing the payload by d rewrites exactly the two length fields of the header. */
  lemma HeaderGrows(h: seq<uint8>, service: uint8, clientId: uint8, transactionId: uint16, messageId: uint16,
                    p: nat, d: nat, q: nat, po: nat)
    requires h == HeaderBytes(service, clientId, transactionId, messageId, p)
    requires q == EmptyQmuxLength(service) + p + d && po == PayloadLengthOffset(service)
    ensures po + 2 <= |h|
    ensures SetLe16(SetLe16(h, QMUX_LENGTH_OFFSET, q), po, p + d)
         == HeaderBytes(service, clientId, transactionId, messageId, p + d)
  {
  }

  /**
   * Splicing a record after a header and a chain, then storing two values
   * into the header, gives the updated header, the chain and the record.
   */
  lemma AppendLayout(s: seq<uint8>, h: seq<uint8>, c: seq<uint8>, tb: seq<uint8>,
                     k1: nat, v1: nat, k2: nat, v2: nat)
    requires |h| + |c| + |tb| <= |s| && s[..|h| + |c|] == h + c
    requires k1 + 2 <= |h| && k2 + 2 <= |h|
    ensures SetLe16(SetLe16(Splice(s, |h| + |c|, tb), k1, v1), k2, v2)
         == SetLe16(SetLe16(h, k1, v1), k2, v2) + (c + tb + s[|h| + |c| + |tb|..])
  {
    var e := h + c;
    var y := s[|e|..];
    assert s == e + y;
    SpliceAfter(e, y, tb);
    var z := c + tb + y[|tb|..];
    assert Splice(s, |e|, tb) == h + z;
    assert y[|tb|..] == s[|h| + |c| + |tb|..];
    SetLe16Prefix(h, z, k1, v1);
    SetLe16Prefix(SetLe16(h, k1, v1), z, k2, v2);
  }

  /** AppendImage with its offsets and new lengths given by name. */
  lemma AppendImageIs(s: seq<uint8>, t: Tlv, off: nat, q: nat, po: nat, p: nat)
    requires AddTlvReady(s) && TlvFits(s, |t.value|)
    requires off == TlvOffset(s) && q == QmuxLength(s) + TlvSize(t)
    requires po == PayloadLengthOffset(s[QMUX_SERVICE_OFFSET]) && p == PayloadLength(s) + TlvSize(t)
    ensures AppendImage(s, t) == SetLe16(SetLe16(Splice(s, off, TlvBytes(t)), QMUX_LENGTH_OFFSET, q), po, p)
  {
  }

  /** The service type and the two length fields of a buffer holding m. */
  lemma HeldLengths(s: seq<uint8>, m: Request)
    requires Holds(s, m) && Sized(m)
    ensures HasHeader(s) && s[QMUX_SERVICE_OFFSET] == m.service
    ensures QmuxLength(s) == EmptyQmuxLength(m.service) + ChainSize(m.tlvs)
    ensures PayloadLength(s) == ChainSize(m.tlvs)
  {
    EncodedFields(s, m);
  }

  /** The image of one append to a buffer holding m: the regrown header, m's chain, t, the rest. */
  lemma AppendImageEncoded(s: seq<uint8>, m: Request, t: Tlv)
    requires Holds(s, m) && Sized(m) && QMI_DEFAULT_BUF_SIZE <= |s|
    requires EmptyQmuxLength(m.service) + ChainSize(m.tlvs) + TlvSize(t) < QMI_DEFAULT_BUF_SIZE
    ensures AddTlvReady(s) && TlvFits(s, |t.value|)
    ensures AppendImage(s, t)
         == HeaderBytes(m.service, m.clientId, m.transactionId, m.messageId, ChainSize(m.tlvs) + TlvSize(t))
            + (ChainBytes(m.tlvs) + TlvBytes(t) + s[|Encode(m)| + TlvSize(t)..])
  {
    HeldLengths(s, m);
    var p := ChainSize(m.tlvs);
    var h := HeaderBytes(m.service, m.clientId, m.transactionId, m.messageId, p);
    var c := ChainBytes(m.tlvs);
    assert Encode(m) == h + c;
    AppendImageOver(s, t, h, c, m.service, m.clientId, m.transactionId, m.messageId, p, TlvSize(t));
  }

  /** AppendImageEncoded with the header and the chain of the held message given by name. */
  lemma AppendImageOver(s: seq<uint8>, t: Tlv, h: seq<uint8>, c: seq<uint8>, service: uint8,
                        clientId: uint8, transactionId: uint16, messageId: uint16, p: nat, d: nat)
    requires h == HeaderBytes(service, clientId, transactionId, messageId, p) && |c| == p
    requires |h| + |c| <= |s| && s[..|h| + |c|] == h + c && QMI_DEFAULT_BUF_SIZE <= |s|
    requires s[QMUX_SERVICE_OFFSET] == service && d == TlvSize(t)
    requires QmuxLength(s) == EmptyQmuxLength(service) + p && HasHeader(s) && PayloadLength(s) == p
    requires EmptyQmuxLength(service) + p + d < QMI_DEFAULT_BUF_SIZE
    ensures AddTlvReady(s) && TlvFits(s, |t.value|)
    ensures AppendImage(s, t)
         == HeaderBytes(service, clientId, transactionId, messageId, p + d) + (c + TlvBytes(t) + s[|h| + |c| + d..])
  {
    var off := |h| + |c|;
    var q := EmptyQmuxLength(service) + p + d;
    var po := PayloadLengthOffset(service);
    assert TlvOffset(s) == off;
    HeaderGrows(h, service, clientId, transactionId, messageId, p, d, q, po);
    AppendImageFrom(s, t, h, c, HeaderBytes(service, clientId, transactionId, messageId, p + d), off, q, po, p + d);
  }

  /** AppendImage over a buffer that starts with a header h and a chain c, given the regrown header. */
  lemma AppendImageFrom(s: seq<uint8>, t: Tlv, h: seq<uint8>, c: seq<uint8>, hb: seq<uint8>,
                        off: nat, q: nat, po: nat, p: nat)
    requires AddTlvReady(s) && TlvFits(s, |t.value|)
    requires off == TlvOffset(s) && q == QmuxLength(s) + TlvSize(t)
    requires po == PayloadLengthOffset(s[QMUX_SERVICE_OFFSET]) && p == PayloadLength(s) + TlvSize(t)
    requires |h| + |c| == off && s[..off] == h + c && po + 2 <= |h|
    requires SetLe16(SetLe16(h, QMUX_LENGTH_OFFSET, q), po, p) == hb
    ensures AppendImage(s, t) == hb + (c + TlvBytes(t) + s[off + TlvSize(t)..])
  {
    AppendImageIs(s, t, off, q, po, p);
    AppendLayout(s, h, c, TlvBytes(t), QMUX_LENGTH_OFFSET, q, po, p);
  }

  /** Appending t to a buffer holding m leaves it holding m with t added last. */
  lemma AppendEncodes(s: seq<uint8>, m: Request, t: Tlv)
    requires Holds(s, m) && Sized(m) && QMI_DEFAULT_BUF_SIZE <= |s|
    requires EmptyQmuxLength(m.service) + ChainSize(m.tlvs) + TlvSize(t) < QMI_DEFAULT_BUF_SIZE
    ensures AddTlvReady(s) && TlvFits(s, |t.value|)
    ensures Holds(AppendImage(s, t), m.(tlvs := m.tlvs + [t]))
    ensures Sized(m.(tlvs := m.tlvs + [t]))
  {
    AppendImageEncoded(s, m, t);
    EncodeAppend(m, t);
    AllFitAppend(m.tlvs, t);
    PrefixHolds(AppendImage(s, t),
                HeaderBytes(m.service, m.clientId, m.transactionId, m.messageId, ChainSize(m.tlvs) + TlvSize(t)),
                ChainBytes(m.tlvs), TlvBytes(t), s[|Encode(m)| + TlvSize(t)..], m.(tlvs := m.tlvs + [t]));
  }

  lemma PrefixHolds(r: seq<uint8>, h: seq<uint8>, c: seq<uint8>, b: seq<uint8>, x: seq<uint8>, m: Request)
    requires r == h + (c + b + x) && Encode(m) == h + (c + b)
    ensures Holds(r, m)
  {
    assert r == (h + (c + b)) + x;
    assert r[..|h + (c + b)|] == h + (c + b);
  }

  /** The wire image of m with t appended, in terms of m's chain. */
  lemma EncodeAppend(m: Request, t: Tlv)
    ensures ChainSize(m.tlvs + [t]) == ChainSize(m.tlvs) + TlvSize(t)
    ensures Encode(m.(tlvs := m.tlvs + [t]))
         == HeaderBytes(m.service, m.clientId, m.transactionId, m.messageId, ChainSize(m.tlvs) + TlvSize(t))
            + (ChainBytes(m.tlvs) + TlvBytes(t))
  {
    var ts' := m.tlvs + [t];
    ChainAppend(m.tlvs, t);
    var n := ChainSize(ts');
    var m' := Request(m.service, m.clientId, m.transactionId, m.messageId, ts');
    assert m' == m.(tlvs := ts');
    assert Encode(m') == HeaderBytes(m.service, m.clientId, m.transactionId, m.messageId, n) + ChainBytes(ts');
  }

  lemma AllFitAppend(ts: seq<Tlv>, t: Tlv)
    requires AllFitLength(ts) && TlvFitsLength(t)
    ensures AllFitLength(ts + [t])
  {
    forall k | 0 <= k < |ts + [t]| ensures TlvFitsLength((ts + [t])[k]) {
      if k < |ts| {
        assert (ts + [t])[k] == ts[k];
      }
    }
  }

  // ---------------------------------------------------------------------
  // parse_qmi: the TLV walk
  // ---------------------------------------------------------------------

  /**
   * How a walk ends: the consumed count met the payload length, overshot it,
   * or a record would be read past the end of the buffer (the source reads
   * on regardless, without a bounds check).
   */
  datatype WalkEnd = Complete | Overrun | OutOfBuffer

  datatype Walk = Walk(records: seq<Tlv>, end: WalkEnd)

  /**
   * The records visited from offset pos, `consumed` payload bytes having
   * been walked already, of a payload of `total` bytes.
   */
  function WalkFrom(s: seq<uint8>, pos: nat, consumed: nat, total: nat): Walk
    decreases |s| - pos
  {
    if total <= consumed then Walk([], if consumed == total then Complete else Overrun)
    else if |s| < pos + QMI_TLV_HDR_SIZE then Walk([], OutOfBuffer)
    else
      var n := ReadLe16(s, pos + 1);
      if |s| < pos + QMI_TLV_HDR_SIZE + n then Walk([], OutOfBuffer)
      else
        var rest := WalkFrom(s, pos + QMI_TLV_HDR_SIZE + n, consumed + QMI_TLV_HDR_SIZE + n, total);
        Walk([Tlv(s[pos], s[pos + QMI_TLV_HDR_SIZE..pos + QMI_TLV_HDR_SIZE + n])] + rest.records, rest.end)
  }

  /** The walk of parse_qmi: header variant by service type, then the chain. */
  function TlvWalk(s: seq<uint8>): Walk
  {
    if !HasHeader(s) then Walk([], OutOfBuffer)
    else WalkFrom(s, HeaderSize(s[QMUX_SERVICE_OFFSET]), 0, PayloadLength(s))
  }

  /** The records rs followed by those of the walk w, ending as w ends. */
  function Prepend(rs: seq<Tlv>, w: Walk): Walk
  {
    Walk(rs + w.records, w.end)
  }

  /** Moving one record from the front of a walk to the records before it. */
  lemma PrependStep(rs: seq<Tlv>, t: Tlv, w: Walk)
    ensures Prepend(rs, Prepend([t], w)) == Prepend(rs + [t], w)
  {
    assert rs + ([t] + w.records) == (rs + [t]) + w.records;
  }

  /** One iteration of the traversal loop keeps its invariant. */
  lemma ParseStep(s: seq<uint8>, top: Walk, records: seq<Tlv>, t: Tlv, pos: nat, i: nat, total: nat, n: nat,
                  pos': nat, i': nat)
    requires i < total && pos + QMI_TLV_HDR_SIZE + n <= |s| && n == ReadLe16(s, pos + 1)
    requires t == Tlv(s[pos], s[pos + QMI_TLV_HDR_SIZE..pos + QMI_TLV_HDR_SIZE + n])
    requires pos' == pos + QMI_TLV_HDR_SIZE + n && i' == i + QMI_TLV_HDR_SIZE + n
    requires top == Prepend(records, WalkFrom(s, pos, i, total))
    ensures top == Prepend(records + [t], WalkFrom(s, pos', i', total))
  {
    var rest := WalkFrom(s, pos', i', total);
    WalkStep(s, pos, i, total, n, pos', i');
    PrependStep(records, t, rest);
  }

  /** The walk ends once the consumed count reaches or passes the payload length. */
  lemma WalkDone(s: seq<uint8>, records: seq<Tlv>, pos: nat, i: nat, total: nat)
    requires total <= i
    ensures Prepend(records, WalkFrom(s, pos, i, total)) == Walk(records, if i == total then Complete else Overrun)
  {
    assert records + [] == records;
  }

  /** The walk stops when a record would be read past the end of the buffer. */
  lemma WalkCut(s: seq<uint8>, records: seq<Tlv>, pos: nat, i: nat, total: nat)
    requires i < total
    requires |s| < pos + QMI_TLV_HDR_SIZE || |s| < pos + QMI_TLV_HDR_SIZE + ReadLe16(s, pos + 1)
    ensures Prepend(records, WalkFrom(s, pos, i, total)) == Walk(records, OutOfBuffer)
  {
    assert records + [] == records;
  }

  /**
   * The traversal loop of parse_qmi over the TLV chain that starts at
   * offset start and holds total payload bytes.
   */
  method WalkChain(buf: array<uint8>, start: nat, total: nat) returns (w: Walk)
    ensures w == WalkFrom(buf[..], start, 0, total)
  {
    ghost var s := buf[..];
    ghost var top := WalkFrom(s, start, 0, total);
    var records: seq<Tlv> := [];
    var i: nat := 0;
    var pos: nat := start;
    assert records + top.records == top.records;
    while i < total
      invariant top == Prepend(records, WalkFrom(s, pos, i, total))
      decreases buf.Length - pos
    {
      if buf.Length < pos + QMI_TLV_HDR_SIZE {
        WalkCut(s, records, pos, i, total);
        return Walk(records, OutOfBuffer);
      }
      var n: nat := buf[pos + 1] as int + 0x100 * (buf[pos + 2] as int);
      assert n == ReadLe16(s, pos + 1);
      if buf.Length < pos + QMI_TLV_HDR_SIZE + n {
        WalkCut(s, records, pos, i, total);
        return Walk(records, OutOfBuffer);
      }
      var record := Tlv(buf[pos], buf[pos + QMI_TLV_HDR_SIZE..pos + QMI_TLV_HDR_SIZE + n]);
      assert record == Tlv(s[pos], s[pos + QMI_TLV_HDR_SIZE..pos + QMI_TLV_HDR_SIZE + n]);
      ghost var records0, pos0, i0 := records, pos, i;
      records := records + [record];
      i := i + QMI_TLV_HDR_SIZE + n;
      if i == total {
        ParseStep(s, top, records0, record, pos0, i0, total, n, pos0 + QMI_TLV_HDR_SIZE + n, i);
        WalkDone(s, records, pos0 + QMI_TLV_HDR_SIZE + n, i, total);
        break;
      }
      pos := pos + QMI_TLV_HDR_SIZE + n;
      ParseStep(s, top, records0, record, pos0, i0, total, n, pos, i);
    }
    WalkDone(s, records, pos, i, total);
    w := Walk(records, if i == total then Complete else Overrun);
  }

  /**
   * parse_qmi: the header variant is chosen by the service type, then the
   * TLV chain after it is walked.
   */
  method ParseQmi(buf: array<uint8>) returns (w: Walk)
    ensures w == TlvWalk(buf[..])
  {
    if buf.Length < QMUX_HDR_SIZE || buf.Length < HeaderSize(buf[QMUX_SERVICE_OFFSET]) {
      return Walk([], OutOfBuffer);
    }
    var start: nat, total: nat;
    if buf[QMUX_SERVICE_OFFSET] == QMI_SERVICE_CTL {
      start := QMUX_HDR_SIZE + QMI_HDR_CTL_SIZE;
      total := buf[QMUX_HDR_SIZE + 4] as int + 0x100 * (buf[QMUX_HDR_SIZE + 5] as int);
    } else {
      start := QMUX_HDR_SIZE + QMI_HDR_GEN_SIZE;
      total := buf[QMUX_HDR_SIZE + 5] as int + 0x100 * (buf[QMUX_HDR_SIZE + 6] as int);
    }
    w := WalkChain(buf, start, total);
  }

  /** A slice that equals x + y splits into a slice equal to x and one equal to y. */
  lemma SplitSlice(s: seq<uint8>, a: nat, x: seq<uint8>, y: seq<uint8>)
    requires a + |x| + |y| <= |s| && s[a..a + |x| + |y|] == x + y
    ensures s[a..a + |x|] == x && s[a + |x|..a + |x| + |y|] == y
  {
    forall k | 0 <= k < |x| ensures s[a + k] == x[k] {
      assert s[a..a + |x| + |y|][k] == (x + y)[k];
    }
    forall k | 0 <= k < |y| ensures s[a + |x| + k] == y[k] {
      assert s[a..a + |x| + |y|][|x| + k] == (x + y)[|x| + k];
    }
  }

  /** The first record of a chain laid out at pos, and the rest of the chain after it. */
  lemma ChainHead(s: seq<uint8>, pos: nat, ts: seq<Tlv>)
    requires ts != [] && AllFitLength(ts)
    requires pos + ChainSize(ts) <= |s| && s[pos..pos + ChainSize(ts)] == ChainBytes(ts)
    ensures var t, n := ts[0], |ts[0].value|;
      pos + 3 + n + ChainSize(ts[1..]) == pos + ChainSize(ts) && ReadLe16(s, pos + 1) == n &&
      s[pos] == t.tag && s[pos + 3..pos + 3 + n] == t.value &&
      s[pos + 3 + n..pos + 3 + n + ChainSize(ts[1..])] == ChainBytes(ts[1..]) && AllFitLength(ts[1..])
  {
    var t, rest := ts[0], ts[1..];
    var size, cb := ChainSize(ts), ChainBytes(rest);
    ChainUnfold(ts, t, rest);
    HeadAt(s, pos, t, cb, size);
    assert pos + 3 + |t.value| + ChainSize(rest) == pos + size;
  }

  /** A non-empty chain is its first record followed by the rest. */
  lemma ChainUnfold(ts: seq<Tlv>, t: Tlv, rest: seq<Tlv>)
    requires ts != [] && t == ts[0] && rest == ts[1..] && AllFitLength(ts)
    ensures ChainBytes(ts) == TlvBytes(t) + ChainBytes(rest) && ChainSize(ts) == TlvSize(t) + ChainSize(rest)
    ensures TlvFitsLength(t) && AllFitLength(rest)
  {
    assert TlvFitsLength(ts[0]);
    RestFits(ts);
  }

  /** A record t followed by the bytes cb, laid out at pos. */
  lemma HeadAt(s: seq<uint8>, pos: nat, t: Tlv, cb: seq<uint8>, size: nat)
    requires TlvFitsLength(t) && size == TlvSize(t) + |cb| && pos + size <= |s|
    requires s[pos..pos + size] == TlvBytes(t) + cb
    ensures s[pos] == t.tag && ReadLe16(s, pos + 1) == |t.value|
    ensures s[pos + 3..pos + 3 + |t.value|] == t.value && s[pos + 3 + |t.value|..pos + size] == cb
  {
    SplitSlice(s, pos, TlvBytes(t), cb);
    RecordAt(s, pos, t);
  }

  /** A record laid out at pos: its type, its length field, its value. */
  lemma RecordAt(s: seq<uint8>, pos: nat, t: Tlv)
    requires TlvFitsLength(t) && pos + TlvSize(t) <= |s| && s[pos..pos + TlvSize(t)] == TlvBytes(t)
    ensures s[pos] == t.tag && pos + 3 <= |s| && ReadLe16(s, pos + 1) == |t.value|
    ensures s[pos + 3..pos + 3 + |t.value|] == t.value
  {
    var n := |t.value|;
    SplitSlice(s, pos, [t.tag] + Le16Bytes(n), t.value);
    SplitSlice(s, pos, [t.tag], Le16Bytes(n));
    assert s[pos + 1..pos + 3][0] == s[pos + 1] && s[pos + 1..pos + 3][1] == s[pos + 2];
    Le16RoundTrip(n);
    assert s[pos..pos + 1][0] == s[pos];
  }

  lemma RestFits(ts: seq<Tlv>)
    requires ts != [] && AllFitLength(ts)
    ensures AllFitLength(ts[1..])
  {
    forall k | 0 <= k < |ts[1..]| ensures TlvFitsLength(ts[1..][k]) {
      assert ts[1..][k] == ts[k + 1];
    }
  }

  /** A well-formed chain is walked record by record and consumed exactly. */
  lemma {:induction false} WalkEncodedChain(s: seq<uint8>, pos: nat, consumed: nat, total: nat, ts: seq<Tlv>)
    requires pos + ChainSize(ts) <= |s| && s[pos..pos + ChainSize(ts)] == ChainBytes(ts)
    requires consumed + ChainSize(ts) == total && AllFitLength(ts)
    ensures WalkFrom(s, pos, consumed, total) == Walk(ts, Complete)
    decreases ts
  {
    if ts != [] {
      var t, rest := ts[0], ts[1..];
      var n := |t.value|;
      var pos', consumed' := pos + 3 + n, consumed + 3 + n;
      ChainHead(s, pos, ts);
      WalkEncodedChain(s, pos', consumed', total, rest);
      WalkStep(s, pos, consumed, total, n, pos', consumed');
      assert Tlv(s[pos], s[pos + QMI_TLV_HDR_SIZE..pos']) == t;
      PrependFirst(ts, t, rest, Complete);
    }
  }

  /** Putting the first record back in front of a walk over the rest. */
  lemma PrependFirst(ts: seq<Tlv>, t: Tlv, rest: seq<Tlv>, end: WalkEnd)
    requires ts != [] && t == ts[0] && rest == ts[1..]
    ensures Prepend([t], Walk(rest, end)) == Walk(ts, end)
  {
    assert [t] + rest == ts;
  }

  /** One step of the walk: the record at pos, then the walk after it. */
  lemma WalkStep(s: seq<uint8>, pos: nat, consumed: nat, total: nat, n: nat, pos': nat, consumed': nat)
    requires pos' == pos + QMI_TLV_HDR_SIZE + n && consumed' == consumed + QMI_TLV_HDR_SIZE + n
    requires consumed < total && pos' <= |s| && n == ReadLe16(s, pos + 1)
    ensures WalkFrom(s, pos, consumed, total)
        == Prepend([Tlv(s[pos], s[pos + QMI_TLV_HDR_SIZE..pos'])], WalkFrom(s, pos', consumed', total))
  {
  }

  /** Size, bytes and length bound of a chain with one record in front. */
  lemma ChainCons(t: Tlv, ts: seq<Tlv>)
    ensures ([t] + ts)[0] == t && ([t] + ts)[1..] == ts
    ensures ChainSize([t] + ts) == TlvSize(t) + ChainSize(ts)
    ensures ChainBytes([t] + ts) == TlvBytes(t) + ChainBytes(ts)
    ensures AllFitLength([t] + ts) <==> TlvFitsLength(t) && AllFitLength(ts)
  {
    var c := [t] + ts;
    assert c[0] == t && c[1..] == ts;
    if AllFitLength(ts) && TlvFitsLength(t) {
      forall k | 0 <= k < |c| ensures TlvFitsLength(c[k]) {
        if k > 0 {
          assert c[k] == ts[k - 1];
        }
      }
    }
    if AllFitLength(c) {
      forall k | 0 <= k < |ts| ensures TlvFitsLength(ts[k]) {
        assert ts[k] == c[k + 1];
      }
    }
  }

  /** A walk that reads a record found its header and value inside the buffer. */
  lemma WalkInBuffer(s: seq<uint8>, pos: nat, consumed: nat, total: nat)
    requires consumed < total && WalkFrom(s, pos, consumed, total).end != OutOfBuffer
    ensures pos + QMI_TLV_HDR_SIZE <= |s| && pos + QMI_TLV_HDR_SIZE + ReadLe16(s, pos + 1) <= |s|
  {
  }

  /** The record read at pos has the bytes found there and a valid length. */
  lemma RecordBytes(s: seq<uint8>, pos: nat)
    requires pos + QMI_TLV_HDR_SIZE <= |s| && pos + QMI_TLV_HDR_SIZE + ReadLe16(s, pos + 1) <= |s|
    ensures var n := ReadLe16(s, pos + 1);
      var t := Tlv(s[pos], s[pos + QMI_TLV_HDR_SIZE..pos + QMI_TLV_HDR_SIZE + n]);
      TlvFitsLength(t) && TlvSize(t) == QMI_TLV_HDR_SIZE + n && TlvBytes(t) == s[pos..pos + TlvSize(t)]
  {
    ReadLe16Bytes(s, pos + 1);
  }

  /** Two adjacent slices holding a record and a chain hold the longer chain. */
  lemma ChainSlice(s: seq<uint8>, pos: nat, t: Tlv, ts: seq<Tlv>)
    requires pos + TlvSize(t) + ChainSize(ts) <= |s|
    requires s[pos..pos + TlvSize(t)] == TlvBytes(t)
    requires s[pos + TlvSize(t)..pos + TlvSize(t) + ChainSize(ts)] == ChainBytes(ts)
    ensures ChainSize([t] + ts) == TlvSize(t) + ChainSize(ts)
    ensures s[pos..pos + ChainSize([t] + ts)] == ChainBytes([t] + ts)
  {
    ChainCons(t, ts);
    var e := pos + TlvSize(t) + ChainSize(ts);
    assert s[pos..e] == s[pos..pos + TlvSize(t)] + s[pos + TlvSize(t)..e];
  }

  predicate ChainAt(s: seq<uint8>, pos: nat, consumed: nat, total: nat, ts: seq<Tlv>)
  {
      consumed + ChainSize(ts) == total && pos + ChainSize(ts) <= |s| &&
      s[pos..pos + ChainSize(ts)] == ChainBytes(ts) && AllFitLength(ts)
  }

  lemma ChainAtCons(s: seq<uint8>, pos: nat, consumed: nat, total: nat, n: nat, pos': nat, consumed': nat,
                    ts: seq<Tlv>)
    requires pos' == pos + 3 + n && consumed' == consumed + 3 + n
    requires pos' <= |s| && ReadLe16(s, pos + 1) == n
    requires ChainAt(s, pos', consumed', total, ts)
    ensures ChainAt(s, pos, consumed, total, [Tlv(s[pos], s[pos + 3..pos']) ] + ts)
  {
    var t := Tlv(s[pos], s[pos + 3..pos']);
    RecordBytes(s, pos);
    ChainSlice(s, pos, t, ts);
    ChainCons(t, ts);
  }

  /** A walk that completes read a well-formed chain of exactly the payload length. */
  lemma {:induction false} WalkCompleteSound(s: seq<uint8>, pos: nat, consumed: nat, total: nat)
    requires pos <= |s| && WalkFrom(s, pos, consumed, total).end == Complete
    ensures ChainAt(s, pos, consumed, total, WalkFrom(s, pos, consumed, total).records)
    decreases |s| - pos
  {
    if consumed < total {
      WalkInBuffer(s, pos, consumed, total);
      var n: nat := ReadLe16(s, pos + 1);
      var pos', consumed' := pos + 3 + n, consumed + 3 + n;
      WalkStep(s, pos, consumed, total, n, pos', consumed');
      var rest := WalkFrom(s, pos', consumed', total);
      assert WalkFrom(s, pos, consumed, total).records == [Tlv(s[pos], s[pos + 3..pos'])] + rest.records;
      WalkCompleteSound(s, pos', consumed', total);
      ChainAtCons(s, pos, consumed, total, n, pos', consumed', rest.records);
    }
  }

  /** A walk that overruns consumed more than the payload length. */
  lemma {:induction false} WalkOverrunSound(s: seq<uint8>, pos: nat, consumed: nat, total: nat)
    requires WalkFrom(s, pos, consumed, total).end == Overrun
    ensures total < consumed + ChainSize(WalkFrom(s, pos, consumed, total).records)
    decreases |s| - pos
  {
    if consumed < total {
      WalkInBuffer(s, pos, consumed, total);
      var n: nat := ReadLe16(s, pos + 1);
      var pos', consumed' := pos + 3 + n, consumed + 3 + n;
      var t := Tlv(s[pos], s[pos + 3..pos + 3 + n]);
      WalkStep(s, pos, consumed, total, n, pos', consumed');
      var rest := WalkFrom(s, pos', consumed', total);
      assert WalkFrom(s, pos, consumed, total).records == [t] + rest.records;
      WalkOverrunSound(s, pos', consumed', total);
      ChainCons(t, rest.records);
    }
  }

  // ---------------------------------------------------------------------
  // Reading a whole message back
  // ---------------------------------------------------------------------

  /**
   * The fields parse_qmi reads from a message, normalised over the two
   * header variants, with its TLV chain; None when the walk does not end
   * exactly at the payload length.
   */
  function DecodeRequest(s: seq<uint8>): Option<Request>
  {
    if !HasHeader(s) then None
    else
      var w := TlvWalk(s);
      if w.end == Complete then
        Some(Request(s[QMUX_SERVICE_OFFSET], s[QMUX_CLIENT_OFFSET], TransactionIdField(s),
                     MessageIdField(s), w.records))
      else None
  }

  /**
   * Round trip: the service, client id, transaction id (one byte of it for
   * CTL), message id and TLV sequence of a request read back unchanged.
   */
  lemma DecodeEncode(s: seq<uint8>, m: Request)
    requires Holds(s, m) && Sized(m)
    ensures DecodeRequest(s) == Some(WireForm(m))
  {
    EncodedFields(s, m);
    var start := HeaderSize(m.service);
    assert s[start..start + ChainSize(m.tlvs)] == ChainBytes(m.tlvs);
    WalkEncodedChain(s, start, 0, ChainSize(m.tlvs), m.tlvs);
  }

  /** What decodes was laid out as a header followed by exactly its chain. */
  lemma DecodeSound(s: seq<uint8>, m: Request)
    requires DecodeRequest(s) == Some(m)
    ensures HasHeader(s) && s[QMUX_SERVICE_OFFSET] == m.service
    ensures s[QMUX_CLIENT_OFFSET] == m.clientId && MessageIdField(s) == m.messageId
    ensures TransactionIdField(s) == m.transactionId
    ensures PayloadLength(s) == ChainSize(m.tlvs)
    ensures HeaderSize(m.service) + ChainSize(m.tlvs) <= |s|
    ensures s[HeaderSize(m.service)..HeaderSize(m.service) + ChainSize(m.tlvs)] == ChainBytes(m.tlvs)
  {
    WalkCompleteSound(s, HeaderSize(s[QMUX_SERVICE_OFFSET]), 0, PayloadLength(s));
  }
}
