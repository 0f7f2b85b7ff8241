/**
 * The Network Access Service (NAS) client of the QMI daemon: the state
 * machine that chooses which request to send, the transaction counter
 * advanced by every write, and the handlers for the indication-register
 * reply and for system-information messages.
 *
 * The pure part states what one step does as an `Effect` on the device's
 * view; the `NasDevice` class mirrors the fields of `struct qmi_device` the
 * NAS code updates and proves each of its methods against those functions.
 * The file descriptor write and the WDS connection update are recorded in
 * ghost histories instead of being performed.
 */
module QmiNas {
  import opened QmiWire
  import opened QmiHelpers

  // ---------------------------------------------------------------------
  // Constants of the NAS service (declared in qmi_nas.h, not part of this model)
  // ---------------------------------------------------------------------

  const QMI_NAS_INDICATION_REGISTER: uint16 := 0x0003
  const QMI_NAS_GET_SERVING_SYSTEM: uint16 := 0x0024
  const QMI_NAS_SET_SYSTEM_SELECTION_PREFERENCE: uint16 := 0x0033
  const QMI_NAS_GET_SYS_INFO: uint16 := 0x004D
  const QMI_NAS_SYS_INFO_IND: uint16 := 0x004E

  const QMI_NAS_TLV_SS_MODE: uint8 := 0x11
  const QMI_NAS_TLV_IND_SYS_INFO: uint8 := 0x18
  const QMI_NAS_TLV_SI_GSM_SS: uint8 := 0x12
  const QMI_NAS_TLV_SI_WCDMA_SS: uint8 := 0x13
  const QMI_NAS_TLV_SI_LTE_SS: uint8 := 0x14
  /** srv_status value meaning "in service". */
  const QMI_NAS_TLV_SI_SRV_STATUS_SRV: uint8 := 0x02

  const QMI_NAS_RAT_MODE_PREF_GSM: uint16 := 0x04
  /** The single byte the indication-register request carries to enable sys-info indications. */
  const QMI_NAS_IND_ENABLE: uint8 := 1

  /** Type of the result TLV that opens every reply. */
  const QMI_TLV_RESULT: uint8 := 0x02
  const QMI_RESULT_FAILURE: uint16 := 1

  const UINT8_MAX: nat := 255

  /** Offsets into a NAS reply, which carries the generic (7-byte) header. */
  const NAS_FIRST_TLV: nat := QMUX_HDR_SIZE + QMI_HDR_GEN_SIZE
  const NAS_RESULT_OFFSET: nat := NAS_FIRST_TLV + QMI_TLV_HDR_SIZE

  // ---------------------------------------------------------------------
  // Device state
  // ---------------------------------------------------------------------

  datatype NasState = NasGotCid | NasSetSystem | NasIndReq | NasSysInfoQuery

  /** cur_service; NO_SERVICE is the zero value, the one `!cur_service` checks for. */
  datatype Service = NoService | ServiceGsm | ServiceUmts | ServiceLte

  predicate HasService(c: Service) { c != NoService }

  /** QMI_MSG_SUCCESS, QMI_MSG_FAILURE, QMI_MSG_IGNORE */
  datatype MsgResult = MsgSuccess | MsgFailure | MsgIgnore

  /** The fields of the device the NAS code reads and writes. */
  datatype NasView = NasView(state: NasState, transactionId: uint8, service: Service)

  // ---------------------------------------------------------------------
  // The transaction counter (qmi_ctl_write)
  // ---------------------------------------------------------------------

  /** The counter after one write: incremented modulo 255, with 0 replaced by 1. */
  function NextTransactionId(t: uint8): (r: uint8)
    ensures 0 < r < UINT8_MAX
    ensures r != t
    ensures t < UINT8_MAX - 1 ==> r == t + 1
    ensures t >= UINT8_MAX - 1 ==> r == 1
  {
    var n := (t + 1) % UINT8_MAX;
    if n == 0 then 1 else n
  }

  /** The counter after k writes. */
  function TransactionIdAfter(t: uint8, k: nat): uint8
  {
    if k == 0 then t else NextTransactionId(TransactionIdAfter(t, k - 1))
  }

  /** Stepping a count modulo the cycle length 254. */
  lemma ModSucc(x: nat)
    ensures (x + 1) % (UINT8_MAX - 1) == if x % (UINT8_MAX - 1) == UINT8_MAX - 2 then 0 else x % (UINT8_MAX - 1) + 1
  {
  }

  /** From any id in 1..254 the counter cycles through 1..254 in order. */
  lemma {:induction false} TransactionIdCycle(t: uint8, k: nat)
    requires 0 < t < UINT8_MAX
    ensures TransactionIdAfter(t, k) == 1 + (t - 1 + k) % (UINT8_MAX - 1)
  {
    if k == 0 {
      assert (t - 1) % (UINT8_MAX - 1) == t - 1;
    } else {
      TransactionIdCycle(t, k - 1);
      ModSucc(t - 1 + (k - 1));
    }
  }

  /** The id of a write comes back after exactly 254 further writes, not before. */
  lemma TransactionIdPeriod(t: uint8, k: nat)
    requires 0 < t < UINT8_MAX
    ensures 0 < k < UINT8_MAX - 1 ==> TransactionIdAfter(t, k) != t
    ensures TransactionIdAfter(t, UINT8_MAX - 1) == t
  {
    TransactionIdCycle(t, k);
    TransactionIdCycle(t, UINT8_MAX - 1);
    assert (t - 1 + (UINT8_MAX - 1)) % (UINT8_MAX - 1) == t - 1;
  }

  /** From the zero-initialised counter the k-th write (k >= 1) leaves 1 + (k - 1) % 254. */
  lemma TransactionIdFromZero(k: nat)
    requires 0 < k
    ensures TransactionIdAfter(0, k) == 1 + (k - 1) % (UINT8_MAX - 1)
  {
    TransactionIdShift(k - 1);
    TransactionIdCycle(1, k - 1);
  }

  /** Running k + 1 writes from 0 is running k writes from 1. */
  lemma {:induction false} TransactionIdShift(k: nat)
    ensures TransactionIdAfter(0, k + 1) == TransactionIdAfter(1, k)
  {
    if k > 0 {
      TransactionIdShift(k - 1);
    }
  }

  // ---------------------------------------------------------------------
  // The requests the senders build
  // ---------------------------------------------------------------------

  /** qmi_nas_set_sys_selection: one 2-byte SS_MODE TLV holding the GSM preference. */
  function SysSelectionRequest(nasId: uint8, tid: uint8): Request
  {
    Request(QMI_SERVICE_NAS, nasId, tid, QMI_NAS_SET_SYSTEM_SELECTION_PREFERENCE,
            [Tlv(QMI_NAS_TLV_SS_MODE, Le16Bytes(QMI_NAS_RAT_MODE_PREF_GSM))])
  }

  /** qmi_nas_send_indication_request: one 1-byte IND_SYS_INFO TLV of value 1. */
  function IndicationRequest(nasId: uint8, tid: uint8): Request
  {
    Request(QMI_SERVICE_NAS, nasId, tid, QMI_NAS_INDICATION_REGISTER,
            [Tlv(QMI_NAS_TLV_IND_SYS_INFO, [QMI_NAS_IND_ENABLE])])
  }

  /** qmi_nas_req_sys_info: no TLVs. */
  function SysInfoRequest(nasId: uint8, tid: uint8): Request
  {
    Request(QMI_SERVICE_NAS, nasId, tid, QMI_NAS_GET_SYS_INFO, [])
  }

  /** The request qmi_nas_send chooses in each state. */
  function RequestFor(state: NasState, nasId: uint8, tid: uint8): Request
  {
    match state
    case NasGotCid => SysSelectionRequest(nasId, tid)
    case NasSetSystem => SysSelectionRequest(nasId, tid)
    case NasIndReq => IndicationRequest(nasId, tid)
    case NasSysInfoQuery => SysInfoRequest(nasId, tid)
  }

  /**
   * The bytes written for every state: their QMUX length plus the marker is
   * exactly their size, they carry the id given, and they parse back to the
   * request, its message id, TLVs and transaction id unchanged.
   */
  lemma RequestWire(state: NasState, nasId: uint8, tid: uint8)
    ensures var m := RequestFor(state, nasId, tid); var e := Encode(m);
      Sized(m) && QMUX_LENGTH_OFFSET + 2 <= |e| && QmuxLength(e) + 1 == |e| &&
      HasHeader(e) && TransactionIdField(e) == tid &&
      DecodeRequest(e) == Some(m)
    ensures var m := RequestFor(state, nasId, tid);
      m.service == QMI_SERVICE_NAS && m.clientId == nasId &&
      (state == NasGotCid || state == NasSetSystem ==>
         m.messageId == QMI_NAS_SET_SYSTEM_SELECTION_PREFERENCE && |m.tlvs| == 1 &&
         m.tlvs[0].tag == QMI_NAS_TLV_SS_MODE && |m.tlvs[0].value| == 2 &&
         ReadLe16(m.tlvs[0].value, 0) == QMI_NAS_RAT_MODE_PREF_GSM) &&
      (state == NasIndReq ==>
         m.messageId == QMI_NAS_INDICATION_REGISTER && m.tlvs == [Tlv(QMI_NAS_TLV_IND_SYS_INFO, [1])]) &&
      (state == NasSysInfoQuery ==> m.messageId == QMI_NAS_GET_SYS_INFO && m.tlvs == [])
  {
    var m := RequestFor(state, nasId, tid);
    var e := Encode(m);
    Le16RoundTrip(QMI_NAS_RAT_MODE_PREF_GSM);
    assert Sized(m);
    assert Holds(e, m);
    SentBytes(e, m);
    EncodedFields(e, m);
    DecodeEncode(e, m);
  }

  /** A buffer holding m: the qmux length plus the marker covers exactly Encode(m). */
  lemma SentBytes(s: seq<uint8>, m: Request)
    requires Holds(s, m) && Sized(m)
    ensures QMUX_LENGTH_OFFSET + 2 <= |s| && QmuxLength(s) + 1 == |Encode(m)|
    ensures s[..QmuxLength(s) + 1] == Encode(m)
  {
    HeldLengths(s, m);
  }

  // ---------------------------------------------------------------------
  // Replies
  // ---------------------------------------------------------------------

  /** The result code: the first two value bytes of the first TLV after the generic header. */
  function ReplyResult(s: seq<uint8>): uint16
    requires NAS_RESULT_OFFSET + 2 <= |s|
  {
    ReadLe16(s, NAS_RESULT_OFFSET)
  }

  /** The same read through the CTL-sized header, one byte short (qmi_nas.c:95-97 as written). */
  function ReplyResultAsWritten(s: seq<uint8>): uint16
    requires QMUX_HDR_SIZE + QMI_HDR_CTL_SIZE + QMI_TLV_HDR_SIZE + 2 <= |s|
  {
    ReadLe16(s, QMUX_HDR_SIZE + QMI_HDR_CTL_SIZE + QMI_TLV_HDR_SIZE)
  }

  /** message_id of the generic header, read on a little-endian host. */
  function MessageIdAt(s: seq<uint8>): uint16
    requires NAS_RESULT_OFFSET + 2 <= |s|
  {
    ReadLe16(s, MessageIdOffset(QMI_SERVICE_NAS))
  }

  /** A result TLV: result code then error code. */
  function ResultTlv(result: uint16, error: uint16): Tlv
  {
    Tlv(QMI_TLV_RESULT, Le16Bytes(result) + Le16Bytes(error))
  }

  /** The buffer with its two control-flags bytes, the QMUX one and the generic-header one, zeroed. */
  function ClearFlags(s: seq<uint8>): seq<uint8>
    requires QMI_HDR_FLAGS_OFFSET < |s|
  {
    s[QMUX_FLAGS_OFFSET := 0][QMI_HDR_FLAGS_OFFSET := 0]
  }

  /**
   * s carries m as a message from the modem does: every byte is that of
   * Encode(m) except the two control-flags bytes, which a response or an
   * indication sets and which may hold anything.
   */
  predicate HoldsReply(s: seq<uint8>, m: Request)
  {
    QMI_HDR_FLAGS_OFFSET < |s| && Holds(ClearFlags(s), m)
  }

  /** A buffer holding m still holds it as a reply whatever is written into its two flags bytes. */
  lemma ReplyAnyFlags(s: seq<uint8>, m: Request, qmuxFlags: uint8, qmiFlags: uint8)
    requires Holds(s, m) && Sized(m)
    ensures QMI_HDR_FLAGS_OFFSET < |s|
    ensures HoldsReply(s[QMUX_FLAGS_OFFSET := qmuxFlags][QMI_HDR_FLAGS_OFFSET := qmiFlags], m)
  {
    EncodedFields(s, m);
    var t := s[QMUX_FLAGS_OFFSET := qmuxFlags][QMI_HDR_FLAGS_OFFSET := qmiFlags];
    assert ClearFlags(t) == s;
  }

  /** Beyond the generic-header flags the two buffers agree. */
  predicate SameAfterFlags(s: seq<uint8>, t: seq<uint8>)
  {
    |s| == |t| && forall k :: QMI_HDR_FLAGS_OFFSET < k < |s| ==> s[k] == t[k]
  }

  /** The scan reads nothing at or before the generic-header flags. */
  lemma {:induction false} ScanFromAfterFlags(s: seq<uint8>, t: seq<uint8>, pos: nat, i: uint16, remaining: uint16)
    requires SameAfterFlags(s, t) && QMI_HDR_FLAGS_OFFSET < pos
    ensures ScanFrom(s, pos, i, remaining) == ScanFrom(t, pos, i, remaining)
    decreases |s| - pos
  {
    if i < remaining && pos + QMI_TLV_HDR_SIZE <= |s| && !(IsTechTlv(s[pos]) && |s| <= pos + QMI_TLV_HDR_SIZE) {
      var n: nat := ReadLe16(s, pos + 1);
      assert n == ReadLe16(t, pos + 1);
      var i': uint16 := (i + QMI_TLV_HDR_SIZE + n) % 0x1_0000;
      ScanFromAfterFlags(s, t, pos + QMI_TLV_HDR_SIZE + n, i', remaining);
    }
  }

  /**
   * qmi_nas_handle_msg and the handlers it calls read nothing of the two
   * flags bytes: a message gives the same effect whatever they hold.
   */
  lemma HandleIgnoresFlags(v: NasView, nasId: uint8, s: seq<uint8>, qmuxFlags: uint8, qmiFlags: uint8)
    requires NAS_RESULT_OFFSET + 2 <= |s|
    ensures var t := s[QMUX_FLAGS_OFFSET := qmuxFlags][QMI_HDR_FLAGS_OFFSET := qmiFlags];
      NAS_RESULT_OFFSET + 2 <= |t| &&
      MessageIdAt(t) == MessageIdAt(s) && ReplyResult(t) == ReplyResult(s) &&
      ReplyResultAsWritten(t) == ReplyResultAsWritten(s) && SysInfoScan(t) == SysInfoScan(s) &&
      HandleEffect(v, nasId, t) == HandleEffect(v, nasId, s) &&
      IndReplyEffectAsWritten(v, nasId, t) == IndReplyEffectAsWritten(v, nasId, s)
  {
    var t := s[QMUX_FLAGS_OFFSET := qmuxFlags][QMI_HDR_FLAGS_OFFSET := qmiFlags];
    assert SameAfterFlags(s, t);
    var n: nat := ReadLe16(s, NAS_FIRST_TLV + 1);
    var total := ReadLe16(s, PayloadLengthOffset(QMI_SERVICE_NAS));
    var remaining: uint16 := (total - QMI_TLV_HDR_SIZE - n) % 0x1_0000;
    ScanFromAfterFlags(s, t, NAS_RESULT_OFFSET + n, 0, remaining);
  }

  /** Where the first TLV of a NAS message and the rest of its chain lie. */
  lemma ReplyLayout(s: seq<uint8>, m: Request)
    requires HoldsReply(s, m) && Sized(m) && m.service == QMI_SERVICE_NAS && m.tlvs != []
    ensures var n := |m.tlvs[0].value|; var rest := m.tlvs[1..];
      NAS_RESULT_OFFSET + n + ChainSize(rest) <= |s| &&
      ReadLe16(s, NAS_FIRST_TLV + 1) == n &&
      s[NAS_RESULT_OFFSET..NAS_RESULT_OFFSET + n] == m.tlvs[0].value &&
      s[NAS_RESULT_OFFSET + n..NAS_RESULT_OFFSET + n + ChainSize(rest)] == ChainBytes(rest) &&
      ReadLe16(s, PayloadLengthOffset(QMI_SERVICE_NAS)) == QMI_TLV_HDR_SIZE + n + ChainSize(rest) &&
      AllFitLength(rest)
  {
    var c := ClearFlags(s);
    EncodedFields(c, m);
    ChainHead(c, NAS_FIRST_TLV, m.tlvs);
    var n, size := |m.tlvs[0].value|, ChainSize(m.tlvs[1..]);
    assert SameAfterFlags(s, c);
    SliceAfterFlags(s, c, NAS_RESULT_OFFSET, NAS_RESULT_OFFSET + n);
    SliceAfterFlags(s, c, NAS_RESULT_OFFSET + n, NAS_RESULT_OFFSET + n + size);
  }

  lemma SliceAfterFlags(s: seq<uint8>, t: seq<uint8>, lo: nat, hi: nat)
    requires SameAfterFlags(s, t) && QMI_HDR_FLAGS_OFFSET < lo <= hi <= |s|
    ensures s[lo..hi] == t[lo..hi]
  {
    assert forall k :: 0 <= k < hi - lo ==> s[lo..hi][k] == t[lo..hi][k];
  }

  /**
   * The result code read from a reply holding m is the first two bytes of
   * its first TLV; the as-written read takes the high length byte and the
   * low result byte instead.
   */
  lemma ReplyResultRead(s: seq<uint8>, m: Request)
    requires HoldsReply(s, m) && Sized(m) && m.service == QMI_SERVICE_NAS
    requires m.tlvs != [] && 2 <= |m.tlvs[0].value|
    ensures NAS_RESULT_OFFSET + 2 <= |s|
    ensures ReplyResult(s) == ReadLe16(m.tlvs[0].value, 0)
    ensures ReplyResultAsWritten(s) == Hi(|m.tlvs[0].value|) as int + 0x100 * (m.tlvs[0].value[0] as int)
  {
    ReplyLayout(s, m);
    ResultBytes(s, m.tlvs[0].value);
  }

  /** The two reads of ReplyResultRead, given the first TLV's length and value bytes. */
  lemma ResultBytes(s: seq<uint8>, v: seq<uint8>)
    requires 2 <= |v| && NAS_RESULT_OFFSET + |v| <= |s|
    requires ReadLe16(s, NAS_FIRST_TLV + 1) == |v| && s[NAS_RESULT_OFFSET..NAS_RESULT_OFFSET + |v|] == v
    ensures ReplyResult(s) == ReadLe16(v, 0)
    ensures ReplyResultAsWritten(s) == Hi(|v|) as int + 0x100 * (v[0] as int)
  {
    var n := |v|;
    assert s[NAS_RESULT_OFFSET] == v[0] && s[NAS_RESULT_OFFSET + 1] == v[1] by {
      assert s[NAS_RESULT_OFFSET..NAS_RESULT_OFFSET + n][0] == v[0];
      assert s[NAS_RESULT_OFFSET..NAS_RESULT_OFFSET + n][1] == v[1];
    }
    assert s[NAS_FIRST_TLV + 2] == Hi(n);
  }

  // ---------------------------------------------------------------------
  // The system-information scan (qmi_nas_handle_sys_info)
  // ---------------------------------------------------------------------

  predicate IsTechTlv(tag: uint8)
  {
    tag == QMI_NAS_TLV_SI_GSM_SS || tag == QMI_NAS_TLV_SI_WCDMA_SS || tag == QMI_NAS_TLV_SI_LTE_SS
  }

  function TechService(tag: uint8): (c: Service)
    requires IsTechTlv(tag)
    ensures HasService(c)
  {
    if tag == QMI_NAS_TLV_SI_GSM_SS then ServiceGsm
    else if tag == QMI_NAS_TLV_SI_WCDMA_SS then ServiceUmts
    else ServiceLte
  }

  /** The candidate a technology TLV at pos yields: its technology if srv_status is in service. */
  function StatusAt(s: seq<uint8>, pos: nat): Service
    requires pos + QMI_TLV_HDR_SIZE < |s| && IsTechTlv(s[pos])
  {
    if s[pos + QMI_TLV_HDR_SIZE] == QMI_NAS_TLV_SI_SRV_STATUS_SRV then TechService(s[pos]) else NoService
  }

  /**
   * The scan loop from the record at pos, i bytes consumed of `remaining`
   * (both uint16, so i wraps), no candidate yet. None when a record would
   * be read past the end of the buffer.
   */
  function ScanFrom(s: seq<uint8>, pos: nat, i: uint16, remaining: uint16): Option<Service>
    decreases |s| - pos
  {
    if remaining <= i then Some(NoService)
    else if |s| < pos + QMI_TLV_HDR_SIZE then None
    else if IsTechTlv(s[pos]) && |s| <= pos + QMI_TLV_HDR_SIZE then None
    else
      var n: nat := ReadLe16(s, pos + 1);
      var c := if IsTechTlv(s[pos]) then StatusAt(s, pos) else NoService;
      var i': uint16 := (i + QMI_TLV_HDR_SIZE + n) % 0x1_0000;
      if i' == remaining || HasService(c) then Some(c)
      else ScanFrom(s, pos + QMI_TLV_HDR_SIZE + n, i', remaining)
  }

  /** What a system-information message tells the device. */
  datatype SysInfo = ReplyFailed | Unreadable | Observed(service: Service)

  /** qmi_nas_handle_sys_info up to the update: result check, first TLV skipped, scan. */
  function SysInfoScan(s: seq<uint8>): SysInfo
    requires NAS_RESULT_OFFSET + 2 <= |s|
  {
    if ReplyResult(s) == QMI_RESULT_FAILURE then ReplyFailed
    else
      var total := ReadLe16(s, PayloadLengthOffset(QMI_SERVICE_NAS));
      var n: nat := ReadLe16(s, NAS_FIRST_TLV + 1);
      var remaining: uint16 := (total - QMI_TLV_HDR_SIZE - n) % 0x1_0000;
      match ScanFrom(s, NAS_RESULT_OFFSET + n, 0, remaining)
      case None => Unreadable
      case Some(c) => Observed(c)
  }

  /** One step of the scan, with the next position and count given by name. */
  lemma ScanUnfold(s: seq<uint8>, pos: nat, i: uint16, remaining: uint16, n: nat,
                   pos': nat, i': uint16, c: Service)
    requires i < remaining && pos + QMI_TLV_HDR_SIZE <= |s|
    requires IsTechTlv(s[pos]) ==> pos + QMI_TLV_HDR_SIZE < |s|
    requires n == ReadLe16(s, pos + 1) && pos' == pos + QMI_TLV_HDR_SIZE + n
    requires i' == (i + QMI_TLV_HDR_SIZE + n) % 0x1_0000
    requires c == if IsTechTlv(s[pos]) then StatusAt(s, pos) else NoService
    ensures ScanFrom(s, pos, i, remaining)
         == if i' == remaining || HasService(c) then Some(c) else ScanFrom(s, pos', i', remaining)
  {
  }

  /**
   * The scan loop of qmi_nas_handle_sys_info over the device buffer,
   * reading as the source does; nothing is changed.
   */
  method ReadSysInfo(rx: array<uint8>) returns (obs: SysInfo)
    requires NAS_RESULT_OFFSET + 2 <= rx.Length
    ensures obs == SysInfoScan(rx[..])
  {
    ghost var s := rx[..];
    var result := rx[NAS_RESULT_OFFSET] as int + 0x100 * (rx[NAS_RESULT_OFFSET + 1] as int);
    if result == QMI_RESULT_FAILURE {
      return ReplyFailed;
    }
    var total := rx[11] as int + 0x100 * (rx[12] as int);
    var n0: nat := rx[NAS_FIRST_TLV + 1] as int + 0x100 * (rx[NAS_FIRST_TLV + 2] as int);
    var remaining: uint16 := (total - QMI_TLV_HDR_SIZE - n0) % 0x1_0000;
    var pos: nat := NAS_RESULT_OFFSET + n0;
    var i: uint16 := 0;
    var cur := NoService;
    ghost var top := ScanFrom(s, pos, 0, remaining);
    while i < remaining && cur == NoService
      invariant top == if HasService(cur) then Some(cur) else ScanFrom(s, pos, i, remaining)
      decreases rx.Length - pos
    {
      if rx.Length < pos + QMI_TLV_HDR_SIZE {
        return Unreadable;
      }
      var tag := rx[pos];
      var n: nat := rx[pos + 1] as int + 0x100 * (rx[pos + 2] as int);
      if IsTechTlv(tag) {
        if rx.Length <= pos + QMI_TLV_HDR_SIZE {
          return Unreadable;
        }
        cur := TechService(tag);
        if rx[pos + QMI_TLV_HDR_SIZE] != QMI_NAS_TLV_SI_SRV_STATUS_SRV {
          cur := NoService;
        }
      }
      var i': uint16 := (i + QMI_TLV_HDR_SIZE + n) % 0x1_0000;
      var pos' := pos + QMI_TLV_HDR_SIZE + n;
      ScanUnfold(s, pos, i, remaining, n, pos', i', cur);
      i := i';
      if i == remaining {
        break;
      }
      pos := pos';
    }
    assert top == Some(cur);
    return Observed(cur);
  }

  /** Every technology TLV carries at least its srv_status byte. */
  predicate StatusPresent(ts: seq<Tlv>)
  {
    forall k :: 0 <= k < |ts| && IsTechTlv(ts[k].tag) ==> |ts[k].value| > 0
  }

  /** The candidate one record yields. */
  function RecordService(t: Tlv): Service
  {
    if IsTechTlv(t.tag) && |t.value| > 0 && t.value[0] == QMI_NAS_TLV_SI_SRV_STATUS_SRV
    then TechService(t.tag) else NoService
  }

  /** The technology of the first in-service technology record, if any. */
  function FirstInService(ts: seq<Tlv>): Service
  {
    if ts == [] then NoService
    else if HasService(RecordService(ts[0])) then RecordService(ts[0])
    else FirstInService(ts[1..])
  }

  /** Over a well-formed chain the scan finds the first in-service technology. */
  lemma {:induction false} ScanEncodedChain(s: seq<uint8>, pos: nat, i: uint16, remaining: uint16, ts: seq<Tlv>)
    requires AllFitLength(ts) && StatusPresent(ts)
    requires pos + ChainSize(ts) <= |s| && s[pos..pos + ChainSize(ts)] == ChainBytes(ts)
    requires i + ChainSize(ts) == remaining
    ensures ScanFrom(s, pos, i, remaining) == Some(FirstInService(ts))
    decreases |ts|
  {
    if ts != [] {
      ChainHead(s, pos, ts);
      var t, n := ts[0], |ts[0].value|;
      var rest := ts[1..];
      var pos': nat := pos + QMI_TLV_HDR_SIZE + n;
      var i': uint16 := i + QMI_TLV_HDR_SIZE + n;
      assert (i + QMI_TLV_HDR_SIZE + n) % 0x1_0000 == i';
      if IsTechTlv(t.tag) {
        assert |t.value| > 0;
        assert s[pos + QMI_TLV_HDR_SIZE] == t.value[0] by {
          assert s[pos + QMI_TLV_HDR_SIZE..pos + QMI_TLV_HDR_SIZE + n][0] == t.value[0];
        }
      }
      var c := if IsTechTlv(s[pos]) then StatusAt(s, pos) else NoService;
      assert c == RecordService(t);
      ScanUnfold(s, pos, i, remaining, n, pos', i', c);
      if i' == remaining {
        assert rest == [];
      } else if !HasService(c) {
        assert StatusPresent(rest) by {
          forall k | 0 <= k < |rest| && IsTechTlv(rest[k].tag) ensures |rest[k].value| > 0 {
            assert rest[k] == ts[k + 1];
          }
        }
        ScanEncodedChain(s, pos', i', remaining, rest);
      }
    }
  }

  /**
   * End to end: a system-information message holding m, whose first TLV is
   * the result, is a failure exactly when that result is QMI_RESULT_FAILURE;
   * otherwise it reports the first in-service technology of the other TLVs.
   */
  lemma SysInfoObserved(s: seq<uint8>, m: Request)
    requires HoldsReply(s, m) && Sized(m) && m.service == QMI_SERVICE_NAS
    requires m.tlvs != [] && 2 <= |m.tlvs[0].value| && StatusPresent(m.tlvs[1..])
    ensures NAS_RESULT_OFFSET + 2 <= |s|
    ensures SysInfoScan(s)
         == if ReadLe16(m.tlvs[0].value, 0) == QMI_RESULT_FAILURE then ReplyFailed
            else Observed(FirstInService(m.tlvs[1..]))
  {
    ReplyResultRead(s, m);
    if ReplyResult(s) != QMI_RESULT_FAILURE {
      SysInfoInService(s, m);
    }
  }

  /** The scan part of SysInfoObserved, for a message whose result is not a failure. */
  lemma SysInfoInService(s: seq<uint8>, m: Request)
    requires HoldsReply(s, m) && Sized(m) && m.service == QMI_SERVICE_NAS
    requires m.tlvs != [] && StatusPresent(m.tlvs[1..])
    requires NAS_RESULT_OFFSET + 2 <= |s| && ReplyResult(s) != QMI_RESULT_FAILURE
    ensures SysInfoScan(s) == Observed(FirstInService(m.tlvs[1..]))
  {
    ReplyLayout(s, m);
    var n := |m.tlvs[0].value|;
    var rest := m.tlvs[1..];
    var total := ReadLe16(s, PayloadLengthOffset(QMI_SERVICE_NAS));
    var remaining: uint16 := total - QMI_TLV_HDR_SIZE - n;
    ScanEncodedChain(s, NAS_RESULT_OFFSET + n, 0, remaining, rest);
    SysInfoScanIs(s, total, n, remaining, FirstInService(rest));
  }

  /** SysInfoScan of a message that is not a failure, with its lengths and scan outcome given by name. */
  lemma SysInfoScanIs(s: seq<uint8>, total: uint16, n: nat, remaining: uint16, c: Service)
    requires NAS_RESULT_OFFSET + 2 <= |s| && ReplyResult(s) != QMI_RESULT_FAILURE
    requires total == ReadLe16(s, PayloadLengthOffset(QMI_SERVICE_NAS)) && n == ReadLe16(s, NAS_FIRST_TLV + 1)
    requires total == QMI_TLV_HDR_SIZE + n + remaining
    requires ScanFrom(s, NAS_RESULT_OFFSET + n, 0, remaining) == Some(c)
    ensures SysInfoScan(s) == Observed(c)
  {
  }

  // ---------------------------------------------------------------------
  // The update rule and its history
  // ---------------------------------------------------------------------

  datatype Update = Update(service: Service, notify: bool)

  /**
   * The end of qmi_nas_handle_sys_info: the device service and a connection
   * update change only when service presence toggles.
   */
  function ServiceUpdate(current: Service, observed: Service): (u: Update)
    ensures u.notify <==> HasService(current) != HasService(observed)
    ensures HasService(u.service) == HasService(observed)
    ensures u.service == if u.notify then observed else current
  {
    if (HasService(current) && !HasService(observed)) || (!HasService(current) && HasService(observed))
    then Update(observed, true)
    else Update(current, false)
  }

  /** The device service and the number of connection updates after a run of observations. */
  function Replay(current: Service, observed: seq<Service>): (Service, nat)
    decreases |observed|
  {
    if observed == [] then (current, 0)
    else
      var u := ServiceUpdate(current, observed[0]);
      var r := Replay(u.service, observed[1..]);
      (r.0, r.1 + if u.notify then 1 else 0)
  }

  /** Number of presence toggles along a run of observations, starting from `present`. */
  function PresenceChanges(present: bool, observed: seq<Service>): nat
    decreases |observed|
  {
    if observed == [] then 0
    else (if present != HasService(observed[0]) then 1 else 0)
         + PresenceChanges(HasService(observed[0]), observed[1..])
  }

  /**
   * Over any run, the connection is updated once per presence toggle and the
   * device ends with service exactly when the last observation had it.
   */
  lemma {:induction false} ReplayCountsChanges(current: Service, observed: seq<Service>)
    ensures Replay(current, observed).1 == PresenceChanges(HasService(current), observed)
    ensures observed != [] ==> HasService(Replay(current, observed).0) == HasService(observed[|observed| - 1])
    ensures observed == [] ==> Replay(current, observed).0 == current
    decreases |observed|
  {
    if observed != [] {
      var u := ServiceUpdate(current, observed[0]);
      ReplayCountsChanges(u.service, observed[1..]);
      if |observed| > 1 {
        assert observed[1..][|observed[1..]| - 1] == observed[|observed| - 1];
      }
    }
  }

  // ---------------------------------------------------------------------
  // Effects of one step
  // ---------------------------------------------------------------------

  /** The new view, the messages written, the connection updates made, the value returned. */
  datatype Effect = Effect(view: NasView, sent: seq<seq<uint8>>, connects: nat, result: MsgResult)

  function Quiet(v: NasView, result: MsgResult): Effect
  {
    Effect(v, [], 0, result)
  }

  /** qmi_nas_send: one request for the state, stamped with the counter before the write. */
  function SendEffect(v: NasView, nasId: uint8): Effect
  {
    Effect(v.(transactionId := NextTransactionId(v.transactionId)),
           [Encode(RequestFor(v.state, nasId, v.transactionId))], 0, MsgIgnore)
  }

  /** qmi_nas_handle_ind_req_reply given the result code it read. */
  function IndReplyOutcome(v: NasView, nasId: uint8, result: uint16): Effect
  {
    if result == QMI_RESULT_FAILURE then Quiet(v, MsgFailure)
    else SendEffect(v.(state := NasSysInfoQuery), nasId).(result := MsgSuccess)
  }

  function IndReplyEffect(v: NasView, nasId: uint8, s: seq<uint8>): Effect
    requires NAS_RESULT_OFFSET + 2 <= |s|
  {
    IndReplyOutcome(v, nasId, ReplyResult(s))
  }

  function IndReplyEffectAsWritten(v: NasView, nasId: uint8, s: seq<uint8>): Effect
    requires NAS_RESULT_OFFSET + 2 <= |s|
  {
    IndReplyOutcome(v, nasId, ReplyResultAsWritten(s))
  }

  function SysInfoEffect(v: NasView, s: seq<uint8>): Effect
    requires NAS_RESULT_OFFSET + 2 <= |s|
  {
    match SysInfoScan(s)
    case Observed(c) =>
      var u := ServiceUpdate(v.service, c);
      Effect(v.(service := u.service), [], if u.notify then 1 else 0, MsgIgnore)
    case _ => Quiet(v, MsgIgnore)
  }

  /** qmi_nas_handle_msg: dispatch on the message id. */
  function HandleEffect(v: NasView, nasId: uint8, s: seq<uint8>): Effect
    requires NAS_RESULT_OFFSET + 2 <= |s|
  {
    var id := MessageIdAt(s);
    if id == QMI_NAS_INDICATION_REGISTER then IndReplyEffect(v, nasId, s)
    else if id == QMI_NAS_GET_SYS_INFO || id == QMI_NAS_SYS_INFO_IND then SysInfoEffect(v, s)
    else Quiet(v, MsgIgnore)
  }

  /** A send writes one message that parses back to the request of the state, and advances the counter. */
  lemma SendEffectWire(v: NasView, nasId: uint8)
    ensures var e := SendEffect(v, nasId);
      |e.sent| == 1 && DecodeRequest(e.sent[0]) == Some(RequestFor(v.state, nasId, v.transactionId)) &&
      QMUX_LENGTH_OFFSET + 2 <= |e.sent[0]| && QmuxLength(e.sent[0]) + 1 == |e.sent[0]| &&
      e.view == v.(transactionId := TransactionIdAfter(v.transactionId, 1)) &&
      0 < e.view.transactionId && e.result == MsgIgnore && e.connects == 0
  {
    RequestWire(v.state, nasId, v.transactionId);
  }

  /**
   * The indication-register reply: on a failure result nothing changes and
   * MsgFailure is returned; otherwise the state becomes SYS_INFO_QUERY and
   * exactly one GET_SYS_INFO request with the current id is written.
   */
  lemma IndReplyFollowsResult(v: NasView, nasId: uint8, s: seq<uint8>)
    requires NAS_RESULT_OFFSET + 2 <= |s|
    ensures var e := IndReplyEffect(v, nasId, s);
      (e.result == MsgFailure <==> ReplyResult(s) == QMI_RESULT_FAILURE) &&
      (e.result == MsgFailure ==> e == Quiet(v, MsgFailure)) &&
      (e.result != MsgFailure ==>
         e.result == MsgSuccess && e.view.state == NasSysInfoQuery && e.view.service == v.service &&
         e.view.transactionId == NextTransactionId(v.transactionId) && e.connects == 0 &&
         |e.sent| == 1 && DecodeRequest(e.sent[0]) == Some(SysInfoRequest(nasId, v.transactionId)))
  {
    RequestWire(NasSysInfoQuery, nasId, v.transactionId);
  }

  /**
   * Any NAS message: at most one request written and at most one connection
   * update; the state either stays or becomes SYS_INFO_QUERY; the counter
   * moves exactly when a request is written; a connection update happens
   * exactly when service presence toggles; a failure changes nothing; an
   * id other than the three handled ones (GET_SERVING_SYSTEM included)
   * changes nothing and returns QMI_MSG_IGNORE.
   */
  lemma HandleEffectShape(v: NasView, nasId: uint8, s: seq<uint8>)
    requires NAS_RESULT_OFFSET + 2 <= |s|
    ensures var e := HandleEffect(v, nasId, s);
      |e.sent| <= 1 && e.connects <= 1 &&
      (e.view.state == v.state || e.view.state == NasSysInfoQuery) &&
      (|e.sent| == 1 <==> e.view.transactionId != v.transactionId) &&
      (|e.sent| == 1 ==> DecodeRequest(e.sent[0]) == Some(RequestFor(e.view.state, nasId, v.transactionId))) &&
      (e.connects == 1 <==> HasService(e.view.service) != HasService(v.service)) &&
      (e.connects == 0 ==> e.view.service == v.service) &&
      (e.result == MsgFailure ==> e == Quiet(v, MsgFailure)) &&
      (MessageIdAt(s) != QMI_NAS_INDICATION_REGISTER ==> e.result == MsgIgnore && e.sent == []) &&
      (!(MessageIdAt(s) in {QMI_NAS_INDICATION_REGISTER, QMI_NAS_GET_SYS_INFO, QMI_NAS_SYS_INFO_IND}) ==>
         e == Quiet(v, MsgIgnore)) &&
      (MessageIdAt(s) == QMI_NAS_GET_SERVING_SYSTEM ==> e == Quiet(v, MsgIgnore))
  {
    RequestWire(NasSysInfoQuery, nasId, v.transactionId);
  }

  /**
   * For a reply holding m, the handler takes the failure path exactly when
   * the result TLV says failure.
   */
  lemma IndReplyOfMessage(v: NasView, nasId: uint8, s: seq<uint8>, m: Request)
    requires HoldsReply(s, m) && Sized(m) && m.service == QMI_SERVICE_NAS
    requires m.tlvs != [] && 2 <= |m.tlvs[0].value|
    ensures NAS_RESULT_OFFSET + 2 <= |s|
    ensures IndReplyEffect(v, nasId, s).result == MsgFailure
        <==> ReadLe16(m.tlvs[0].value, 0) == QMI_RESULT_FAILURE
  {
    ReplyResultRead(s, m);
  }

  /**
   * As written, a failure reply (result TLV of length 4, result 1) reads as
   * 0x100, so the handler registers success and moves on to SYS_INFO_QUERY.
   */
  lemma FailureReplyMisread(v: NasView, nasId: uint8, s: seq<uint8>, m: Request, error: uint16)
    requires HoldsReply(s, m) && Sized(m) && m.service == QMI_SERVICE_NAS
    requires m.tlvs != [] && m.tlvs[0] == ResultTlv(QMI_RESULT_FAILURE, error)
    ensures NAS_RESULT_OFFSET + 2 <= |s|
    ensures ReplyResult(s) == QMI_RESULT_FAILURE && ReplyResultAsWritten(s) == 0x100
    ensures IndReplyEffect(v, nasId, s) == Quiet(v, MsgFailure)
    ensures IndReplyEffectAsWritten(v, nasId, s).result == MsgSuccess
    ensures IndReplyEffectAsWritten(v, nasId, s).view.state == NasSysInfoQuery
  {
    Le16RoundTrip(QMI_RESULT_FAILURE);
    var value := m.tlvs[0].value;
    assert value[..2] == Le16Bytes(QMI_RESULT_FAILURE);
    assert value[0] == 1 && value[1] == 0;
    assert ReadLe16(value, 0) == QMI_RESULT_FAILURE;
    ReplyResultRead(s, m);
  }

  // ---------------------------------------------------------------------
  // The device
  // ---------------------------------------------------------------------

  class NasDevice {
    /** nas_state */
    var nasState: NasState
    /** nas_transaction_id */
    var nasTransactionId: uint8
    /** cur_service */
    var curService: Service
    /** nas_id, the client id the modem assigned */
    const nasId: uint8
    /** buf, the last message read from the modem */
    const buf: array<uint8>
    /** Every message written to the modem, in order. */
    ghost var written: seq<seq<uint8>>
    /** How many times qmi_wds_update_connect was called. */
    ghost var updateConnects: nat

    ghost predicate Valid()
    {
      buf.Length == QMI_DEFAULT_BUF_SIZE
    }

    function View(): NasView
      reads this
    {
      NasView(nasState, nasTransactionId, curService)
    }

    /** The device after one step with effect e, from the given histories. */
    ghost predicate Applied(e: Effect, written0: seq<seq<uint8>>, connects0: nat)
      reads this
    {
      View() == e.view && written == written0 + e.sent && updateConnects == connects0 + e.connects
    }

    /** A zero-initialised device that has just been given its NAS client id. */
    constructor (nasId: uint8, buf: array<uint8>)
      requires buf.Length == QMI_DEFAULT_BUF_SIZE
      ensures Valid() && this.nasId == nasId && this.buf == buf
      ensures View() == NasView(NasGotCid, 0, NoService)
      ensures written == [] && updateConnects == 0
    {
      this.nasId := nasId;
      this.buf := buf;
      nasState := NasGotCid;
      nasTransactionId := 0;
      curService := NoService;
      written := [];
      updateConnects := 0;
    }

    /** qmi_ctl_write: advances the counter and writes len + 1 bytes, the marker included. */
    method CtlWrite(msg: array<uint8>, len: nat)
      requires len + 1 <= msg.Length
      modifies this
      ensures nasTransactionId == NextTransactionId(old(nasTransactionId))
      ensures nasState == old(nasState) && curService == old(curService)
      ensures written == old(written) + [msg[..len + 1]] && updateConnects == old(updateConnects)
    {
      var t := (nasTransactionId + 1) % UINT8_MAX;
      if t == 0 {
        t := 1;
      }
      nasTransactionId := t;
      written := written + [msg[..len + 1]];
    }

    method SendIndicationRequest()
      modifies this
      ensures nasState == NasIndReq && curService == old(curService)
      ensures nasTransactionId == NextTransactionId(old(nasTransactionId))
      ensures written == old(written) + [Encode(IndicationRequest(nasId, old(nasTransactionId)))]
      ensures updateConnects == old(updateConnects)
    {
      var msg := new uint8[QMI_DEFAULT_BUF_SIZE];
      CreateRequest(msg, QMI_SERVICE_NAS, nasId, nasTransactionId, QMI_NAS_INDICATION_REGISTER);
      ghost var m := Request(QMI_SERVICE_NAS, nasId, nasTransactionId, QMI_NAS_INDICATION_REGISTER, []);
      ghost var t := Tlv(QMI_NAS_TLV_IND_SYS_INFO, [QMI_NAS_IND_ENABLE]);
      AppendEncodes(msg[..], m, t);
      var appended := AddTlv(msg, QMI_NAS_TLV_IND_SYS_INFO, [QMI_NAS_IND_ENABLE]);
      assert m.(tlvs := m.tlvs + [t]) == IndicationRequest(nasId, nasTransactionId);
      nasState := NasIndReq;
      var len := msg[QMUX_LENGTH_OFFSET] as int + 0x100 * (msg[QMUX_LENGTH_OFFSET + 1] as int);
      SentBytes(msg[..], IndicationRequest(nasId, nasTransactionId));
      CtlWrite(msg, len);
    }

    method ReqSysInfo()
      modifies this
      ensures nasState == old(nasState) && curService == old(curService)
      ensures nasTransactionId == NextTransactionId(old(nasTransactionId))
      ensures written == old(written) + [Encode(SysInfoRequest(nasId, old(nasTransactionId)))]
      ensures updateConnects == old(updateConnects)
    {
      var msg := new uint8[QMI_DEFAULT_BUF_SIZE];
      CreateRequest(msg, QMI_SERVICE_NAS, nasId, nasTransactionId, QMI_NAS_GET_SYS_INFO);
      var len := msg[QMUX_LENGTH_OFFSET] as int + 0x100 * (msg[QMUX_LENGTH_OFFSET + 1] as int);
      SentBytes(msg[..], SysInfoRequest(nasId, nasTransactionId));
      CtlWrite(msg, len);
    }

    method SetSysSelection()
      modifies this
      ensures nasState == old(nasState) && curService == old(curService)
      ensures nasTransactionId == NextTransactionId(old(nasTransactionId))
      ensures written == old(written) + [Encode(SysSelectionRequest(nasId, old(nasTransactionId)))]
      ensures updateConnects == old(updateConnects)
    {
      var msg := new uint8[QMI_DEFAULT_BUF_SIZE];
      CreateRequest(msg, QMI_SERVICE_NAS, nasId, nasTransactionId, QMI_NAS_SET_SYSTEM_SELECTION_PREFERENCE);
      ghost var m := Request(QMI_SERVICE_NAS, nasId, nasTransactionId, QMI_NAS_SET_SYSTEM_SELECTION_PREFERENCE, []);
      var modePref := Le16Bytes(QMI_NAS_RAT_MODE_PREF_GSM);
      ghost var t := Tlv(QMI_NAS_TLV_SS_MODE, modePref);
      AppendEncodes(msg[..], m, t);
      var appended := AddTlv(msg, QMI_NAS_TLV_SS_MODE, modePref);
      assert m.(tlvs := m.tlvs + [t]) == SysSelectionRequest(nasId, nasTransactionId);
      var len := msg[QMUX_LENGTH_OFFSET] as int + 0x100 * (msg[QMUX_LENGTH_OFFSET + 1] as int);
      SentBytes(msg[..], SysSelectionRequest(nasId, nasTransactionId));
      CtlWrite(msg, len);
    }

    /** qmi_nas_send */
    method Send() returns (r: MsgResult)
      modifies this
      ensures Applied(SendEffect(old(View()), nasId), old(written), old(updateConnects))
      ensures r == SendEffect(old(View()), nasId).result
    {
      r := MsgIgnore;
      match nasState {
        case NasGotCid => SetSysSelection();
        case NasSetSystem => SetSysSelection();
        case NasIndReq => SendIndicationRequest();
        case NasSysInfoQuery => ReqSysInfo();
      }
    }

    /** qmi_nas_handle_ind_req_reply, with the result read at its generic-header offset. */
    method HandleIndReqReply() returns (r: MsgResult)
      requires Valid()
      modifies this
      ensures Applied(IndReplyEffect(old(View()), nasId, buf[..]), old(written), old(updateConnects))
      ensures r == IndReplyEffect(old(View()), nasId, buf[..]).result
    {
      var result := buf[NAS_RESULT_OFFSET] as int + 0x100 * (buf[NAS_RESULT_OFFSET + 1] as int);
      if result == QMI_RESULT_FAILURE {
        return MsgFailure;
      }
      nasState := NasSysInfoQuery;
      var ignored := Send();
      r := MsgSuccess;
    }

    /** qmi_nas_handle_sys_info */
    method HandleSysInfo()
      requires Valid()
      modifies this
      ensures Applied(SysInfoEffect(old(View()), buf[..]), old(written), old(updateConnects))
    {
      var observed := ReadSysInfo(buf);
      if observed.Observed? {
        var c := observed.service;
        if (HasService(curService) && !HasService(c)) || (!HasService(curService) && HasService(c)) {
          curService := c;
          updateConnects := updateConnects + 1;
        }
      }
    }

    /** qmi_nas_handle_msg; GET_SERVING_SYSTEM and unknown ids are only logged. */
    method HandleMsg() returns (r: MsgResult)
      requires Valid()
      modifies this
      ensures Applied(HandleEffect(old(View()), nasId, buf[..]), old(written), old(updateConnects))
      ensures r == HandleEffect(old(View()), nasId, buf[..]).result
    {
      var id := buf[9] as int + 0x100 * (buf[10] as int);
      r := MsgIgnore;
      if id == QMI_NAS_INDICATION_REGISTER {
        r := HandleIndReqReply();
      } else if id == QMI_NAS_GET_SYS_INFO || id == QMI_NAS_SYS_INFO_IND {
        HandleSysInfo();
      }
    }
  }
}
