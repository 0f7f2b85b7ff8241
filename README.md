# QMI NAS client: codec and state machine

This project models two parts of the QMI dialer and proves properties about them.

The first part is the message codec of `qmi_helpers.c`:
- `create_qmi_request` writes a QMUX header and the service header into a byte buffer. The service header is the 6-byte control (CTL) layout with a 1-byte transaction id, or the 7-byte generic layout with a 16-bit one.
- `add_tlv` appends one type-length-value record (TLV) at offset `qmux.length + 1`. It grows both length fields by the record's size.
- `parse_qmi` walks the TLV chain after the header. Only the walk is modelled.

The second part is the Network Access Service (NAS) client of `qmi_nas.c`:
- `qmi_ctl_write` advances the transaction counter and writes the message.
- Three senders build the request for the current state.
- `qmi_nas_send` dispatches on the state.
- The indication-register reply handler checks the result and, on success, sends synchronously.
- The system-information handler scans the technology TLVs and reconnects when service presence toggles.
- `qmi_nas_handle_msg` dispatches on the message id.

Layout of the project:
- `qmi_wire.dfy` (module `QmiWire`) holds the byte types, the header sizes, and the little-endian 16-bit encoding. It also defines the TLV record and a chain's wire image.
- `qmi_helpers.dfy` (module `QmiHelpers`) holds the codec. The buffer is an `array<uint8>` changed in place. Each method's `ensures` ties the new contents to a specification function:
  - `Encode` gives the image of a request;
  - `AppendImage` gives the effect of one append;
  - `WalkFrom` gives the records a walk visits.
  Lemmas then prove what those functions promise: the header fields read back, the length invariant, the frame, and the round trip through the reader.
- `qmi_nas.dfy` (module `QmiNas`) holds the NAS logic. `NasDevice` is a class with the fields of `struct qmi_device` that the NAS code updates. The four writers (`CtlWrite` and the three senders) state the new counter, state and written history directly. `Send` and the three handlers are proved against a pure `Effect` on the device's view. Ghost fields record every message written and every call of `qmi_wds_update_connect`. Lemmas about the effects give the partner properties:
  - the counter cycle;
  - the bytes each state sends and how they parse back;
  - the reply outcomes;
  - the scan over a well-formed chain;
  - the update rule over any run of observations.

Constants that live in the headers `qmi_hdrs.h`, `qmi_shared.h` and `qmi_nas.h` are assumptions, because those headers are not part of this model:
- `qmux_hdr_t` is 6 bytes and includes the 1-byte marker, hence the `- 1` in the QMUX length;
- `qmi_hdr_ctl_t` is 6 bytes, `qmi_hdr_gen_t` is 7 bytes and `qmi_tlv_t` is 3 bytes, all packed;
- `QMI_DEFAULT_BUF_SIZE` is 4096;
- the NAS message ids are 0x03, 0x24, 0x33, 0x4D and 0x4E;
- the TLV ids are 0x11, 0x18 and 0x12-0x14;
- the in-service status is 2, the GSM mode preference is 4, and `QMI_RESULT_FAILURE` is 1;
- `NO_SERVICE` is 0 and the GSM, UMTS and LTE service values are distinct and non-zero, which the loop guard `!cur_service` and the update rule rely on (`HasService`);
- `srv_status` is the first byte of `qmi_nas_service_info_t`, so it is the first value byte of a technology TLV (`StatusAt`, `RecordService`).

Most proofs use only the sizes and the fact that the ids are distinct. `FailureReplyMisread` also relies on `QMI_RESULT_FAILURE` being 1 and on the result TLV being shorter than 256 bytes: its misread value, 0x100, is the high length byte 0 plus 256 times the result's low byte 1.

Behaviour of the code a reader might not expect, which the model keeps:
- The counter runs `(old + 1) % 255` with 0 replaced by 1. It therefore cycles through 1..254; it never takes the value 255 and never wraps "255 → 1" (`TransactionIdCycle`, `TransactionIdPeriod`).
- Each message carries the counter's value before its own write's increment. A zero-initialised device therefore sends its first message with id 0 (`TransactionIdFromZero`, `SendEffectWire`).
- No send moves the state out of GOT_CID or SET_SYSTEM, and nothing moves it to SET_SYSTEM or IND_REQ: the indication-register sender, which sets IND_REQ, runs only in IND_REQ. The reply to SET_SYSTEM_SELECTION_PREFERENCE falls into the default branch of `qmi_nas_handle_msg`. Only a non-failure INDICATION_REGISTER reply changes the state, to SYS_INFO_QUERY, from any state (`IndReplyFollowsResult`, `HandleEffectShape`).
- Messages from the modem carry a response or indication bit in the two control-flags bytes, which requests leave zero. The handlers never read those bytes (`HandleIgnoresFlags`), so the reply lemmas are stated over `HoldsReply`: the buffer is the image of a message in every byte but those two.
- The system-information handler treats the first TLV as the result and skips it, for SYS_INFO_IND indications too. An indication whose only TLV is an in-service GSM record reads that record's first two value bytes as the result and reports no service (`SysInfoObserved` with a one-TLV message).
- When service moves between two technologies that are both in service (GSM → LTE, say), `cur_service` keeps its old value, and no reconnect happens (`ServiceUpdate`).

## Model

| member | source | states |
|---|---|---|
| QmiWire.Le16RoundTrip | qmi_helpers.c:46-47 | storing a value with htole16 and reading it back with le16toh yields the value modulo 2^16, and the value itself when it fits 16 bits |
| QmiWire.ReadLe16Bytes | qmi_helpers.c:63 | reading two bytes as a little-endian value and storing that value back gives the same two bytes |
| QmiWire.ChainAppend | qmi_helpers.c:61-64 | appending a record to a chain appends exactly that record's bytes and size to the chain's image |
| QmiHelpers.HeaderFields | qmi_helpers.c:18-49 | the header create_qmi_request lays out has the marker, zero flags, the service and client id, QMUX length = header size - 1 + payload, the transaction id (one byte of it for CTL), the message id and the payload length |
| QmiHelpers.EncodedFields | qmi_helpers.c:14-77 | every header field of a buffer holding a request's image reads back as written, the two lengths satisfy the length invariant, and the chain follows the header |
| QmiHelpers.PrefixFields | qmi_helpers.c:102-120 | a buffer that starts with a header reads the same service, lengths and ids through either header variant |
| QmiHelpers.SetLe16 | qmi_helpers.c:63 | storing htole16(v) keeps the length of the buffer, and the field reads back v modulo 2^16 |
| QmiHelpers.PutLe16 | qmi_helpers.c:63 | the array afterwards holds exactly SetLe16 of its old contents |
| QmiHelpers.PutQmuxHeader | qmi_helpers.c:18-31 | the six QMUX bytes are the marker, the length of a message without TLVs for the selected header variant, zero flags, the service and the client id; nothing after them changes |
| QmiHelpers.PutServiceHeader | qmi_helpers.c:34-49 | the bytes after the QMUX header are the service header in the layout the service selects, with zero flags, the transaction id (truncated to a byte for CTL), the message id and a zero payload length; nothing else changes |
| QmiHelpers.CreateRequest | qmi_helpers.c:14-50 | the buffer afterwards holds the image of a request with no TLVs, and every byte after the header is unchanged |
| QmiHelpers.AppendImageAt | qmi_helpers.c:61-76 | each byte of the appended buffer, other than the four length bytes, is the new record's byte inside the record's range and the old byte outside it |
| QmiHelpers.AppendImageLengths | qmi_helpers.c:67-76 | after an append the service type is unchanged, the QMUX length grew by 3 + len, and the payload length grew by 3 + len as a 16-bit field |
| QmiHelpers.AppendImageFields | qmi_helpers.c:61-76 | an append writes the type, the LE length and the value at offset qmux.length + 1, grows both lengths, keeps the length invariant, and leaves the buffer ready for the next append |
| QmiHelpers.LengthsGrow | qmi_helpers.c:67-76 | growing both length fields by the same amount preserves qmux.length = header size - 1 + payload length |
| QmiHelpers.AppendImageFrame | qmi_helpers.c:61-76 | an append changes no byte before the new record except the two length fields, and no byte after the record |
| QmiHelpers.AddTlv | qmi_helpers.c:53-77 | the append happens exactly when qmux.length + len + 3 < QMI_DEFAULT_BUF_SIZE (the assertion); then the buffer becomes AppendImage of its old contents, otherwise it is unchanged |
| QmiHelpers.AppendEncodes | qmi_helpers.c:53-77 | appending a record to a buffer holding a request leaves it holding the same request with that record added last |
| QmiHelpers.WalkChain | qmi_helpers.c:122-141 | the traversal loop visits exactly the records WalkFrom lists, in wire order, ending Complete when the consumed count meets the payload length, Overrun when it passes it, and OutOfBuffer when a record lies past the buffer |
| QmiHelpers.ParseQmi | qmi_helpers.c:102-141 | parse_qmi chooses the header variant by the service type, then walks the chain the payload length describes |
| QmiHelpers.WalkEncodedChain | qmi_helpers.c:122-141 | a well-formed chain laid out in the buffer is walked record by record and consumed exactly |
| QmiHelpers.WalkInBuffer | qmi_helpers.c:123-135 | when the walk reads a record at pos and does not end OutOfBuffer, that record's header and value lie inside the buffer |
| QmiHelpers.WalkCompleteSound | qmi_helpers.c:122-141 | a walk that completes has read a well-formed chain whose size is exactly the payload length |
| QmiHelpers.WalkOverrunSound | qmi_helpers.c:135-140 | a walk that overruns consumed more bytes than the payload length |
| QmiHelpers.DecodeEncode | qmi_helpers.c:14-141 | round trip: the service, client id, transaction id (one byte for CTL), message id and TLV sequence of a request are read back unchanged |
| QmiHelpers.DecodeSound | qmi_helpers.c:102-141 | whatever decodes has the service, client id, transaction id and message id read from its header, a payload length equal to its chain's size, and exactly that chain's bytes right after the header (the marker, flags and QMUX length are not read) |
| QmiNas.NextTransactionId | qmi_nas.c:15-19 | one write sets the counter to (old + 1) mod 255, with 0 replaced by 1; the result lies in 1..254 and differs from the old value |
| QmiNas.TransactionIdCycle | qmi_nas.c:15-19 | from any id in 1..254, k writes give 1 + (id - 1 + k) mod 254 |
| QmiNas.TransactionIdPeriod | qmi_nas.c:15-19 | an id comes back after exactly 254 further writes and not before |
| QmiNas.TransactionIdFromZero | qmi_nas.c:15-19 | from the zero-initialised counter, the k-th write leaves 1 + (k - 1) mod 254 |
| QmiNas.RequestWire | qmi_nas.c:30-83 | per state, the request written is SET_SYSTEM_SELECTION_PREFERENCE with one 2-byte SS_MODE TLV holding the GSM preference, INDICATION_REGISTER with one 1-byte IND_SYS_INFO TLV of value 1, or GET_SYS_INFO with no TLVs; its QMUX length plus the marker is its size, and it parses back unchanged |
| QmiNas.SentBytes | qmi_nas.c:26-27 | for a buffer holding a request, the qmux.length + 1 bytes written are exactly the request's image |
| QmiNas.ReplyAnyFlags | qmi_nas.c:93-97 | a buffer holding a message's image, with any values written into its QMUX and generic-header flags bytes, holds that message as a reply |
| QmiNas.ScanFromAfterFlags | qmi_nas.c:133-158 | the scan loop gives the same outcome on two buffers that agree on every byte after the generic-header flags |
| QmiNas.HandleIgnoresFlags | qmi_nas.c:93-213 | the message id, both result reads, the system-information scan, the dispatch effect and the as-written reply effect are the same whatever the two flags bytes hold |
| QmiNas.ReplyResultRead | qmi_nas.c:93-97 | in a reply holding a message, with any flags, the result read at the generic-header offset is the first 16 bits of the first TLV's value; the as-written read is the high length byte plus 256 times the first value byte |
| QmiNas.ReadSysInfo | qmi_nas.c:113-158 | the scan loop over the device buffer yields SysInfoScan: ReplyFailed on a failure result, otherwise the candidate the TLVs after the first one decide, or Unreadable if a record lies past the buffer |
| QmiNas.ScanEncodedChain | qmi_nas.c:133-158 | over a well-formed chain the scan reports the technology of the first GSM/WCDMA/LTE record whose srv_status is in service, and no service when there is none |
| QmiNas.SysInfoObserved | qmi_nas.c:113-158 | a system-information reply or indication (any flags) whose first TLV is the result is a failure exactly when that result is QMI_RESULT_FAILURE, and otherwise reports the first in-service technology of the remaining TLVs |
| QmiNas.SysInfoInService | qmi_nas.c:125-158 | when the result is not a failure, the scan of the TLVs after the first one finds the first in-service technology |
| QmiNas.ServiceUpdate | qmi_nas.c:160-173 | cur_service changes and a reconnect happens exactly when service presence toggles; afterwards presence matches the observation, and a change between two in-service technologies keeps the old one |
| QmiNas.ReplayCountsChanges | qmi_nas.c:166-173 | over any run of observations there is one reconnect per presence toggle, and the device ends with service exactly when the last observation had it |
| QmiNas.SendEffectWire | qmi_nas.c:12-91 | a send writes one message that parses back to the request of the current state, stamped with the counter before the write; the counter advances to a non-zero value; the send returns QMI_MSG_IGNORE and makes no reconnect |
| QmiNas.IndReplyFollowsResult | qmi_nas.c:93-109 | on a failure result, the indication-register reply changes nothing and returns QMI_MSG_FAILURE; otherwise the state becomes SYS_INFO_QUERY, exactly one GET_SYS_INFO request with the current id is written, and it returns QMI_MSG_SUCCESS |
| QmiNas.IndReplyOfMessage | qmi_nas.c:93-109 | for a reply holding a message, with any flags, the handler takes the failure path exactly when the result TLV says failure |
| QmiNas.FailureReplyMisread | qmi_nas.c:95-97 | as written, a failure reply (any flags) whose result TLV has length 4 reads as 0x100, so the handler reports success and moves to SYS_INFO_QUERY; the corrected read reports failure and changes nothing |
| QmiNas.HandleEffectShape | qmi_nas.c:176-213 | any NAS message writes at most one request and makes at most one reconnect; the state stays or becomes SYS_INFO_QUERY; the counter moves exactly when a request is written; a reconnect happens exactly when presence toggles; ids other than INDICATION_REGISTER return QMI_MSG_IGNORE and send nothing; ids other than INDICATION_REGISTER, GET_SYS_INFO and SYS_INFO_IND (GET_SERVING_SYSTEM and unknown ids) leave the device unchanged and return QMI_MSG_IGNORE; in particular GET_SERVING_SYSTEM does |
| QmiNas.NasDevice.CtlWrite | qmi_nas.c:12-28 | the counter becomes NextTransactionId of its old value, the first len + 1 bytes are written, and nothing else changes |
| QmiNas.NasDevice.SendIndicationRequest | qmi_nas.c:30-43 | writes the INDICATION_REGISTER request carrying the old counter, advances the counter, and sets the state to IND_REQ |
| QmiNas.NasDevice.ReqSysInfo | qmi_nas.c:45-53 | writes the GET_SYS_INFO request carrying the old counter, advances the counter, and leaves the state |
| QmiNas.NasDevice.SetSysSelection | qmi_nas.c:55-65 | writes the SET_SYSTEM_SELECTION_PREFERENCE request carrying the old counter, advances the counter, and leaves the state |
| QmiNas.NasDevice.Send | qmi_nas.c:68-91 | the device after a send is SendEffect of its view, with the written history extended by the one message, and the send returns QMI_MSG_IGNORE |
| QmiNas.NasDevice.HandleIndReqReply | qmi_nas.c:93-109 | the device after the reply handler is IndReplyEffect of its view and buffer, with the result read at the generic-header offset |
| QmiNas.NasDevice.HandleSysInfo | qmi_nas.c:113-174 | the device after the system-information handler is SysInfoEffect of its view and buffer: cur_service and the reconnect count follow the update rule, and nothing else changes |
| QmiNas.NasDevice.HandleMsg | qmi_nas.c:176-213 | the device after handle_msg is HandleEffect of its view and buffer, and the returned value is that effect's result |

## Left out

- `qmi_helpers_write` and the file descriptor: `CtlWrite` appends the written bytes to the ghost history `written` instead.
- `qmi_helpers_set_link` is not part of this model; it only runs an `ip link` shell command.
- Logging is not modelled: all `fprintf` and `QMID_DEBUG_PRINT` output, the hex dumps of `parse_qmi`, and the `qmi_verbose_logging` calls to `parse_qmi` in `qmi_ctl_write` and `qmi_nas_handle_msg` are output only. `ParseQmi` models only the traversal.
- `qmi_wds_update_connect` belongs to the WDS client, which is not part of this model. It is counted by the ghost field `updateConnects`.
- The `default: assert(0)` branch of `qmi_nas_send` cannot be reached, because `NasState` has exactly the four states.
- The return values of `qmi_ctl_write` and of the three senders are the raw result of `write(2)`. No caller uses them, so the model's senders return nothing.
- Uninitialised stack buffers: each sender fills a fresh array. Only the bytes the source writes are sent, and the contracts state those bytes exactly.
- Host byte order: `message_id` in `qmi_nas_handle_msg`, `tlv->length` in `qmi_nas_handle_sys_info` and `qmux_hdr->length` in the senders are read without `le16toh`. The three `length += htole16(...)` updates of `add_tlv` add a little-endian value to a field in host order. `qmi_nas_set_sys_selection` copies the host-order `uint16_t mode_pref` into its TLV with `memcpy`. The model reads and writes all of these as little-endian, which assumes a little-endian host as the source does.
- Bytes are the subset type `uint8` over `int` rather than `bv8`. They behave the same, and the 16-bit arithmetic is written explicitly with `% 0x1_0000`.
- Buffer bounds in the TLV walks: the walks in `parse_qmi` and `qmi_nas_handle_sys_info` read past the end of a malformed message. This is modelled as the explicit outcomes `OutOfBuffer` and `Unreadable`, which change no state.
- AddTlv: the abort of the failed assertion is modelled as `appended == false` with the buffer unchanged. The method requires a default-size buffer whose header `create_qmi_request` has written, as every caller provides. On a default-size buffer the assertion keeps every write in bounds; a smaller buffer can be written past its end, and a buffer without a header has the TLV written over its header bytes, which the two `+=` updates then read.
- NasDevice.HandleIndReqReply, NasDevice.HandleSysInfo and NasDevice.HandleMsg require the receive buffer to have the default size. `qmi_device.h`, which declares that buffer, is not part of this model.
- NasDevice.constructor: it builds a zero-initialised device in GOT_CID. How the daemon creates the device is not part of this model.
- NasDevice.HandleIndReqReply reads the result at the generic-header offset, which is the corrected behaviour of the finding below; so do `IndReplyEffect`, `HandleEffect`, `HandleEffectShape` and NasDevice.HandleMsg, which dispatches to it. The as-written read is modelled by `ReplyResultAsWritten` and `IndReplyEffectAsWritten`.

## Findings

| source | as written | input that shows it | evidently intended | confidence | as-written member | corrected member |
|---|---|---|---|---|---|---|
| qmi_nas.c:95-97 | the first TLV of a NAS reply is reached through the 6-byte CTL header, so the result is read at bytes 15-16, one byte early: the high byte of the TLV's length plus 256 times the result's low byte | an INDICATION_REGISTER reply whose result TLV is type 0x02, length 4, value 01 00 00 00 (result QMI_RESULT_FAILURE) reads 0x0100, so the handler returns QMI_MSG_SUCCESS, enters SYS_INFO_QUERY and sends | reach the TLV through the 7-byte generic header, as `qmi_nas_handle_sys_info` does at qmi_nas.c:115-118, and read the result at bytes 16-17 | not executed | QmiNas.FailureReplyMisread | QmiNas.IndReplyOfMessage |
