/**
 * The client's request path and the service's take of a request:
 * `rmw_send_request` frames the serialized request and packs the new
 * change's sequence number into the request's 64-bit sequence id;
 * `rmw_take_request` copies the sender's GUID and sequence number into the
 * request header and decodes the payload.
 */
module Request {
  import opened Common
  import opened Memory
  import opened Types
  import opened Utils
  import opened Take

  /** `rmw_request_id_t`: the writer GUID storage and the sequence number. */
  class RequestId {
    const writerGuid: array<byte>
    var sequenceNumber: int64

    /** A request id whose GUID storage holds `storage` bytes. */
    constructor (storage: nat)
      requires 16 <= storage
      ensures writerGuid.Length == storage && fresh(writerGuid) && sequenceNumber == 0
    {
      writerGuid := new byte[storage](_ => 0);
      sequenceNumber := 0;
    }
  }

  /**
   * `rmw_send_request`. A client with a foreign identifier is refused and
   * nothing is written. Otherwise the header goes into the static output
   * buffer `buffer` and the codec's output `serialized` (None when it
   * fails) behind it; on success the frame, of the serialized length plus
   * 4, is handed to the writer, and the sequence id is the 64-bit packing
   * of the sequence number `changeSn` that the writer gave the change.
   */
  method SendRequest(id: Option<CString>, implementation: CString, buffer: array<byte>,
                     serialized: Option<seq<byte>>, changeSn: SequenceNumber)
    returns (ret: Ret, sent: Option<Outgoing>, sequenceId: Option<int64>)
    requires 4 <= buffer.Length
    requires serialized.Some? ==> |serialized.value| + 4 <= buffer.Length
    modifies buffer
    ensures !IsIdentifierValid(id, implementation) ==>
      ret == IncorrectRmwImplementation && sent.None? && sequenceId.None? && buffer[..] == old(buffer[..])
    ensures IsIdentifierValid(id, implementation) ==>
      && (ret == Ok <==> serialized.Some?) && (ret == Ok || ret == Error)
      && buffer[..4] == EncapsulationHeader
    ensures ret == Ok ==>
      && sent == Some(Outgoing(EncapsulationHeader + serialized.value, None, None))
      && sequenceId == Some(JoinSequenceNumber(changeSn))
    ensures ret != Ok ==> sent.None? && sequenceId.None?
  {
    sent, sequenceId := None, None;
    if !IsIdentifierValid(id, implementation) {
      return IncorrectRmwImplementation, sent, sequenceId;
    }
    var size := WriteFrame(buffer, serialized);
    if size.Some? {
      sent := Some(Outgoing(buffer[..size.value], None, None));
      sequenceId := Some(JoinSequenceNumber(changeSn));
      ret := Ok;
    } else {
      ret := Error;
    }
  }

  /**
   * The header writes of the take paths: the 16 bytes of `guid` in order,
   * by three copies, and the joined sequence number.
   */
  method StampHeader(header: RequestId, guid: Guid, sn: SequenceNumber)
    requires 16 <= header.writerGuid.Length
    modifies header, header.writerGuid
    ensures header.writerGuid[..16] == GuidBytes(guid)
    ensures GuidOfBytes(header.writerGuid[..16]) == guid
    ensures header.writerGuid[16..] == old(header.writerGuid[16..])
    ensures header.sequenceNumber == JoinSequenceNumber(sn)
    ensures SplitSequenceNumber(header.sequenceNumber) == sn
  {
    CopyGuid(GuidBytes(guid), header.writerGuid);
    header.sequenceNumber := JoinSequenceNumber(sn);
    GuidBytesRoundTrip(guid, header.writerGuid[..16]);
    SplitJoin(sn);
  }

  /**
   * `rmw_take_request` on the service in cell `service`: a foreign
   * identifier is refused, an empty take is an error, and both leave the
   * pool and the header alone. Otherwise the newest buffer of the service
   * gives the header the sender's GUID and sequence number, its payload is
   * decoded, and it is released whatever the codec answered; `taken` and
   * the result report the codec's answer.
   */
  method TakeRequest(id: Option<CString>, implementation: CString, buffers: Pool<InputBuffer>,
                     service: nat, header: RequestId, deserialize: CdrView -> bool)
    returns (ret: Ret, taken: bool)
    requires buffers.Valid() && buffers.Recyclable() && 16 <= header.writerGuid.Length
    modifies buffers, buffers.prev, buffers.next, header, header.writerGuid
    ensures buffers.Valid() && buffers.Recyclable()
    ensures ret == Ok <==> taken
    ensures var item := old(Found(buffers, OwnedBy(ServiceEntity, service)));
      if !IsIdentifierValid(id, implementation) || item == Nil then
        && ret == (if IsIdentifierValid(id, implementation) then Error else IncorrectRmwImplementation)
        && buffers.Allocated == old(buffers.Allocated) && buffers.Free == old(buffers.Free)
        && buffers.Released == old(buffers.Released)
        && header.writerGuid[..] == old(header.writerGuid[..])
        && header.sequenceNumber == old(header.sequenceNumber)
      else
        && 0 <= item < buffers.records.Length
        && (ret == Ok || ret == Error)
        && header.writerGuid[..16] == GuidBytes(buffers.records[item].writerGuid)
        && header.writerGuid[16..] == old(header.writerGuid[16..])
        && header.sequenceNumber == JoinSequenceNumber(buffers.records[item].sequenceNumber)
        && taken == deserialize(CdrInput(buffers.records[item]))
        && buffers.Allocated == Remove(old(buffers.Allocated), item)
        && buffers.Free == (if old(buffers.Releases(item)) then old(buffers.Free) else [item] + old(buffers.Free))
        && buffers.Released == if old(buffers.Releases(item)) then old(buffers.Released) + {item} else old(buffers.Released)
    ensures buffers.SettingsKept() && buffers.heapTop == old(buffers.heapTop)
  {
    taken := false;
    if !IsIdentifierValid(id, implementation) {
      return IncorrectRmwImplementation, taken;
    }
    var item := FindByOwner(buffers, OwnedBy(ServiceEntity, service));
    if item == Nil {
      return Error, taken;
    }
    var b := buffers.records[item];
    StampHeader(header, b.writerGuid, b.sequenceNumber);
    taken := DecodeAndRelease(buffers, item, deserialize);
    ret := if taken then Ok else Error;
  }
}
