# libiscsi initiator: wire constants, PDU state and the outbound queue

This project models the core of libiscsi's private header `include/iscsi-private.h`
in Dafny. The model has one module for the wire arithmetic and one for each of the
three stateful structures.

- `IscsiWire` (`wire.dfy`) holds the wire-format arithmetic, as pure functions.
  - **Sizes and rounding:** `ISCSI_HEADER_SIZE`, which is the 48-byte Basic Header
    Segment plus a 4-byte header digest when a header digest is in use; `MIN`, `MAX` and `DIV_ROUND_UP`; padding to a
    4-byte boundary; the 24-bit DataSegmentLength.
  - **Opcodes:** the `iscsi_opcode` enum and the Immediate bit.
  - **Flag bytes:** the Login, SCSI Command, Data-In and Text flags of byte 1. Each
    layout has an encoder, a decoder that rejects reserved values, and a round-trip
    lemma.
  - The bit layouts follow RFC 7143 (sections 11.2.1, 11.3, 11.10 and 11.12). The
    Data-In byte follows the header's `ISCSI_PDU_DATA_*` constants instead. These
    include bits 0x10 and 0x08, which section 11.7 of RFC 7143 reserves in a Data-In
    PDU and section 11.4 uses in the SCSI Response PDU.
- `IscsiPdu` (`pdu.dfy`) holds `struct iscsi_pdu` as the class `Pdu`.
  - The class has the lifecycle flags `DELETE_WHEN_SENT`, `DROP_ON_RECONNECT` and
    `CORK_WHEN_SENT`, and the write cursors `outdata_written` and `payload_written`.
  - The module also has the order-preserving split of a PDU queue by a flag, with its
    partition lemmas.
- `IscsiInPdu` (`in_pdu.dfy`) holds `struct iscsi_in_pdu` as the class `InPdu`.
  - A PDU arrives as a header buffer, then a data buffer that is allocated once the
    header gives its padded length, then an optional data digest.
  - It has the cursors `hdr_pos`, `data_pos` and `received_data_digest_bytes`.
- `IscsiContext` (`context.dfy`) holds the queue fields of `struct iscsi_context` as
  the class `Context`: `outqueue`, `outqueue_current`, `waitpdu`, `incoming` and
  `is_corked`.
  - Its methods queue a PDU, write the current PDU in partial writes, and retire a
    fully written PDU by the rules on the flag definitions.
  - They also flush the queue under a byte budget, tear the connection down on
    reconnect, and read bytes into the inbound PDU.

`Context.Backlog` counts the bytes still to send: the rest of the current PDU plus the whole of every queued PDU. Flush reports as written exactly the drop in this count.

The invariant `Context.QueuesValid` states:

- no PDU is held twice or on two queues;
- every cursor is in bounds;
- queued PDUs have not started;
- PDUs that wait for a reply are fully sent and never flagged `DELETE_WHEN_SENT`;
- a corked context writes nothing.

## Model

| member | source | states |
|---|---|---|
| IscsiWire.HeaderSize | include/iscsi-private.h:75-79 | the header is 48 bytes exactly when the digest setting is none, and 52 bytes for every other setting; it is always a multiple of 4 |
| IscsiWire.Min | include/iscsi-private.h:62-64 | the result is at most both arguments and is one of them |
| IscsiWire.Max | include/iscsi-private.h:65-67 | the result is at least both arguments and is one of them |
| IscsiWire.DivRoundUp | include/iscsi-private.h:71-73 | `q * y >= x`, and `q - 1` units of y would not hold x |
| IscsiWire.DivRoundUpIsLeast | include/iscsi-private.h:71-73 | no k with `k * y >= x` is smaller than DIV_ROUND_UP(x, y) |
| IscsiWire.PaddedLength | include/iscsi-private.h:71-73 | the padded length is a multiple of 4 and less than 4 bytes above the length |
| IscsiWire.PaddedLengthIsLeast | include/iscsi-private.h:71-73 | the padded length is the least multiple of 4 that holds the data |
| IscsiWire.PaddingSize | include/iscsi-private.h:355 | the padding is under 4 bytes, brings the length to a multiple of 4, and is 0 exactly for aligned lengths |
| IscsiWire.DataSegmentLength | include/iscsi-private.h:354 | the length is below 2^24 and reads header bytes 5, 6 and 7 big-endian: its high byte is byte 5, its middle byte byte 6 and its low byte byte 7 |
| IscsiWire.DataSize | include/iscsi-private.h:354-355 | the data segment plus padding is a multiple of 4 and less than 4 bytes above DataSegmentLength |
| IscsiWire.Value | include/iscsi-private.h:254-273 | every opcode except NO_PDU leaves the top two bits clear, so it fits the 6-bit field; the requests are exactly the values below 0x20 |
| IscsiWire.OpcodeOf | include/iscsi-private.h:254-273 | a byte that names an opcode names the opcode with that value |
| IscsiWire.OpcodeOfValue | include/iscsi-private.h:254-273 | distinct enum members have distinct values, so the value maps back to its opcode |
| IscsiWire.ResponseTo | include/iscsi-private.h:255-268 | the enum places a target opcode exactly 0x20 above each of the seven initiator opcodes, and it is not itself an initiator opcode; for six pairs it is the response, while Data-In answers no Data-Out |
| IscsiWire.ResponseToCoversPairs | include/iscsi-private.h:262-268 | every value from 0x20 to 0x26 is the target opcode paired with the initiator opcode 0x20 below it |
| IscsiWire.EncodeOpcodeByte | include/iscsi-private.h:223 | masking the byte with 0x3f gives the opcode, bit 0x40 is the immediate flag, and bit 0x80 stays clear |
| IscsiWire.DecodeOpcodeByte | include/iscsi-private.h:223 | a decoded byte re-encodes to itself; decoding fails exactly when bit 0x80 is set or the low six bits name no opcode |
| IscsiWire.OpcodeByteRoundTrip | include/iscsi-private.h:223 | setting the Immediate bit and then masking with 0x3f recovers the opcode and the flag |
| IscsiWire.NoPduIsNotAWireOpcode | include/iscsi-private.h:271-272 | NO_PDU does not fit the opcode field: masking it gives REJECT |
| IscsiWire.NsgBits | include/iscsi-private.h:233-235 | an NSG value is 0, 1 or 3, never the reserved 2 |
| IscsiWire.CsgBits | include/iscsi-private.h:230-235 | each CSG constant is the matching NSG constant shifted left by two |
| IscsiWire.StageOf | include/iscsi-private.h:230-235 | a 2-bit stage field names the stage with that NSG value, and is rejected exactly when it is 2 |
| IscsiWire.EncodeLoginFlags | include/iscsi-private.h:228-235 | T, C, CSG and NSG each read back from their own bits, and bits 4-5 stay clear |
| IscsiWire.DecodeLoginFlags | include/iscsi-private.h:228-235 | a decoded byte re-encodes to itself; decoding fails exactly on a reserved bit or a stage value of 2 |
| IscsiWire.LoginFlagsRoundTrip | include/iscsi-private.h:228-235 | decoding an encoded Login flag byte gives back every field |
| IscsiWire.AttrBits | include/iscsi-private.h:240-244 | task attribute values are 0 to 4 |
| IscsiWire.AttrOf | include/iscsi-private.h:240-244 | an ATTR field names the attribute with that value, and is rejected exactly when it is above 4 |
| IscsiWire.EncodeScsiFlags | include/iscsi-private.h:237-244 | F, R and W read back from bits 7, 6 and 5, ATTR from bits 0-2, and bits 3-4 stay clear |
| IscsiWire.DecodeScsiFlags | include/iscsi-private.h:237-244 | a decoded byte re-encodes to itself; decoding fails exactly on a reserved bit or an ATTR above 4 |
| IscsiWire.ScsiFlagsRoundTrip | include/iscsi-private.h:237-244 | decoding an encoded SCSI Command flag byte gives back every field |
| IscsiWire.EncodeDataInFlags | include/iscsi-private.h:246-252 | each of the seven Data-In flags reads back from its own bit, and bit 0x20 stays clear |
| IscsiWire.DecodeDataInFlags | include/iscsi-private.h:246-252 | a decoded byte re-encodes to itself; decoding fails exactly when bit 0x20 is set |
| IscsiWire.DataInFlagsRoundTrip | include/iscsi-private.h:246-252 | decoding an encoded Data-In flag byte gives back every flag |
| IscsiWire.EncodeTextFlags | include/iscsi-private.h:225-226 | F and C read back from bits 7 and 6, and the low six bits stay clear |
| IscsiWire.DecodeTextFlags | include/iscsi-private.h:225-226 | a decoded byte re-encodes to itself; decoding fails exactly when a low bit is set |
| IscsiWire.TextFlagsRoundTrip | include/iscsi-private.h:225-226 | decoding an encoded Text flag byte gives back both flags |
| IscsiPdu.Pdu.constructor | include/iscsi-private.h:324-328 | a new PDU keeps its opcode, response opcode, ITT and flags, has a header buffer of ISCSI_HEADER_SIZE, and has nothing written |
| IscsiPdu.Pdu.Unwritten | include/iscsi-private.h:304-311 | nothing is left to write exactly when both the header and the payload are fully written; what is left never exceeds the PDU's size and equals it before anything is written |
| IscsiPdu.Pdu.WriteOutdata | include/iscsi-private.h:305-306 | the header cursor moves forward by what the socket took, never past the header's end |
| IscsiPdu.Pdu.WritePayload | include/iscsi-private.h:308-311 | the payload cursor moves forward only after the whole header is out, and never past payload_len |
| IscsiPdu.Pdu.Rewind | include/iscsi-private.h:304-311 | both cursors are back at 0 and in bounds |
| IscsiPdu.Without | include/iscsi-private.h:284-291 | no kept PDU has the flag, and no more PDUs are kept than were given |
| IscsiPdu.With | include/iscsi-private.h:284-291 | every selected PDU has the flag |
| IscsiPdu.SplitMembers | include/iscsi-private.h:286-289 | a PDU is kept exactly when it was held and lacks the flag, and selected exactly when it was held and has it |
| IscsiPdu.SplitAppend | include/iscsi-private.h:286-289 | one more PDU lands on exactly one side of the split, at its end |
| IscsiPdu.SplitIsPartition | include/iscsi-private.h:286-289 | together the two sides hold every PDU exactly as often as the queue did |
| IscsiPdu.WithoutDistinct | include/iscsi-private.h:286-289 | filtering a queue without duplicates yields a queue without duplicates |
| IscsiInPdu.CopyInto | include/iscsi-private.h:83-96 | as many bytes as fit are copied at the cursor; the bytes before and after stay unchanged |
| IscsiInPdu.InPdu.Remaining | include/iscsi-private.h:83-96 | while the header is incomplete, some header bytes are always still missing |
| IscsiInPdu.InPdu.Complete | include/iscsi-private.h:83-96 | a PDU is complete exactly when no byte is missing |
| IscsiInPdu.InPdu.CompleteLength | include/iscsi-private.h:83-96 | a complete PDU holds exactly the header, the padded data segment that header announces, and the digest |
| IscsiInPdu.InPdu.constructor | include/iscsi-private.h:83-96 | a new inbound PDU has a header buffer of ISCSI_HEADER_SIZE, no data buffer, and has received nothing |
| IscsiInPdu.InPdu.Feed | include/iscsi-private.h:83-96 | it takes as many bytes as the current part still needs and appends them, in order, to what was received |
| IscsiInPdu.InPdu.FeedHeader | include/iscsi-private.h:86-87 | header bytes go in at hdr_pos; completing the header allocates the data buffer |
| IscsiInPdu.InPdu.FeedData | include/iscsi-private.h:89-90 | data bytes go in at data_pos, up to the padded data length |
| IscsiInPdu.InPdu.FeedDigest | include/iscsi-private.h:95-96 | digest bytes go into data_digest_buf at received_data_digest_bytes, up to 4 |
| IscsiContext.Context.constructor | include/iscsi-private.h:175-178 | a new context has empty queues, no inbound PDU, is not corked, and satisfies the queue invariant |
| IscsiContext.Context.QueuePdu | include/iscsi-private.h:350 | an unsent PDU the context does not hold goes to the end of the outbound queue, and the invariant is kept |
| IscsiContext.Context.TakeNext | include/iscsi-private.h:175-176 | the head of the outbound queue moves into the current slot, and the send order, the set of held PDUs and the number of bytes left to send do not change |
| IscsiContext.Context.WriteCurrent | include/iscsi-private.h:304-311 | the socket takes min(allowance, bytes left), header first and then payload; cursors only move forward |
| IscsiContext.Context.FinishCurrent | include/iscsi-private.h:284-291 | a sent DELETE_WHEN_SENT PDU is released and no longer held, and any other PDU joins the end of waitpdu; the context corks exactly when the PDU has CORK_WHEN_SENT |
| IscsiContext.Context.RetireCurrent | include/iscsi-private.h:284-291 | the retired PDU joins the finished PDUs, and the flush record is kept |
| IscsiContext.Context.SendNext | include/iscsi-private.h:284-291 | the bytes left to send drop by exactly the n bytes written, a PDU is retired only once fully written, n is within the allowance, and either the send queue gets shorter or the socket took the whole allowance and the PDU stays part-written in the current slot |
| IscsiContext.Context.Flush | include/iscsi-private.h:284-291 | the PDUs leave in queue order and each finished PDU, released or waiting, is fully written; those expecting a reply are appended to waitpdu and the others are released; only the last may cork; a corked context sends nothing; `written` is exactly how far the bytes left to send dropped, and unused budget means corked or empty |
| IscsiContext.Context.Reconnect | include/iscsi-private.h:286-289 | every held PDU with DROP_ON_RECONNECT is handed back, and every other one is re-queued unsent, in order; current, waitpdu, incoming and the cork are cleared; the dropped PDUs were held and are left unchanged |
| IscsiContext.Context.StartIncoming | include/iscsi-private.h:178 | a new inbound PDU starts, sized for the connection's header digest and with nothing received |
| IscsiContext.Context.FeedIncoming | include/iscsi-private.h:83-98 | bytes are appended to the inbound PDU, as many as its current part needs; a complete PDU is handed back and the slot emptied, and an incomplete one stays |
| IscsiContext.Context.ReadFromSocket | include/iscsi-private.h:83-98 | bytes are appended to the inbound PDU; a complete PDU is handed back and the slot emptied, and an incomplete one stays |
| IscsiContext.SplitByFlag | include/iscsi-private.h:286-289 | the loop computes exactly the kept and dropped halves of the queue |
| IscsiContext.RewindAll | include/iscsi-private.h:304-311 | every PDU of the queue starts over with both cursors at 0 |

## Left out

- Concurrency: the `iscsi_lock` and mutex fields, the atomic counters and the service thread. Every operation here runs with the context to itself.
- The transport function table, `iscsi_dup2` and all socket I/O. A write is modelled as the number of bytes the socket accepts, which the caller passes in. A read is modelled as the bytes the caller passes in.
- Functions declared in the header but defined elsewhere: `crc32c`, `iscsi_serial32_compare`, `iscsi_itt_post_increment`, the `iscsi_process_*` reply handlers and `iscsi_timeout_scan`. Writing their bodies would mean inventing them. This also leaves out the computing and checking of header and data digests. The model only reserves the digest bytes and receives the data digest.
- CHAP state, TCP keepalive settings, timeouts, reconnect timing, logging and allocation statistics. They depend on hashing, the clock or the OS, none of which is modelled.
- Context.QueuePdu: appends at the end of the outbound queue (FIFO). The body of `iscsi_add_to_outqueue` is not shown, so any ordering it applies is not modelled.
- Context.Reconnect: re-queues kept PDUs in the order waitpdu, current, outqueue, with their cursors rewound. It does not assign the fresh ITT and CmdSN a real re-send carries, and it does not run completion callbacks for the dropped PDUs. Those PDUs are only returned.
- Context: the cork is cleared only by Reconnect here. Uncorking when the awaited reply arrives happens in reply-handling code that is not part of this model.
- Context.Flush: returns released PDUs to the caller instead of freeing them. Memory is not modelled.
- Completion callbacks, `private_data`, the SCSI task and its cbdata, `lun`, `cmdsn`, `datasn`, `indata` and the PDU's data buffers are not modelled. Only the fields that the queue and cursor rules use are kept.
- HeaderDigest: the four settings follow the `iscsi_header_digest` enum, which is not part of this model. Only the difference between none and any other setting is used, as `ISCSI_HEADER_SIZE` does.
- Context.WriteCurrent: outbound pad bytes after the payload and an outbound data digest are not written. `struct iscsi_pdu` has no cursor for them, and the writing code is not part of this model. A PDU counts as fully written once its header and payload are out. FinishCurrent and Flush retire it at that point.
- DivRoundUp: computed on unbounded naturals. The C macro `((x)+(y)-1)/(y)` wraps when `x + y - 1` overflows its unsigned type. That cannot happen for the 24-bit DataSegmentLength it is applied to here.
- Pdu.WriteOutdata, Pdu.WritePayload: the cursors are unbounded naturals. The 32-bit `payload_*` fields cannot overflow here, because a cursor never passes its bound.
