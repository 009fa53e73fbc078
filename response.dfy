/**
 * The service's response path and the client's take of a response:
 * `rmw_send_response` rebuilds the request's GUID and sequence number from
 * the request header and sends them along with the serialized response as
 * the change's related identity; `rmw_take_response` copies that related
 * identity back into the client's header.
 */
module Response {
  import opened Common
  import opened Memory
  import opened Types
  import opened Utils
  import opened Take
  import opened Request

  /**
   * The identity `rmw_send_response` attaches to a response: the GUID
   * rebuilt from the header's first 16 bytes, by three copies into a GUID's
   * storage, and the header's sequence number split into its high and low
   * words.
   */
  method RelatedIdentity(header: RequestId) returns (guid: Guid, sn: SequenceNumber)
    requires 16 <= header.writerGuid.Length
    ensures GuidBytes(guid) == header.writerGuid[..16]
    ensures JoinSequenceNumber(sn) == header.sequenceNumber
  {
    var storage := new byte[16](_ => 0);
    CopyGuid(header.writerGuid[..16], storage);
    guid := GuidOfBytes(storage[..]);
    GuidBytesRoundTrip(guid, storage[..]);
    sn := SplitSequenceNumber(header.sequenceNumber);
    JoinSplit(header.sequenceNumber);
  }

  /**
   * `rmw_send_response`. A service with a foreign identifier is refused and
   * nothing is written. Otherwise the header goes into the static output
   * buffer and the codec's output `serialized` (None when it fails) behind
   * it; on success the frame is handed to the writer together with the
   * request's GUID and sequence number taken from `header`.
   */
  method SendResponse(id: Option<CString>, implementation: CString, header: RequestId,
                      buffer: array<byte>, serialized: Option<seq<byte>>)
    returns (ret: Ret, sent: Option<Outgoing>)
    requires 16 <= header.writerGuid.Length && buffer != header.writerGuid
    requires 4 <= buffer.Length
    requires serialized.Some? ==> |serialized.value| + 4 <= buffer.Length
    modifies buffer
    ensures !IsIdentifierValid(id, implementation) ==>
      ret == IncorrectRmwImplementation && sent.None? && buffer[..] == old(buffer[..])
    ensures IsIdentifierValid(id, implementation) ==>
      && (ret == Ok <==> serialized.Some?) && (ret == Ok || ret == Error)
      && buffer[..4] == EncapsulationHeader
    ensures ret == Ok ==>
      && sent.Some? && sent.value.data == EncapsulationHeader + serialized.value
      && sent.value.relatedGuid.Some? && GuidBytes(sent.value.relatedGuid.value) == header.writerGuid[..16]
      && sent.value.relatedSn.Some? && JoinSequenceNumber(sent.value.relatedSn.value) == header.sequenceNumber
    ensures ret != Ok ==> sent.None?
  {
    sent := None;
    if !IsIdentifierValid(id, implementation) {
      return IncorrectRmwImplementation, sent;
    }
    var guid, sn := RelatedIdentity(header);
    var size := WriteFrame(buffer, serialized);
    if size.Some? {
      sent := Some(Outgoing(buffer[..size.value], Some(guid), Some(sn)));
      ret := Ok;
    } else {
      ret := Error;
    }
  }

  /**
   * `rmw_take_response` on the client in cell `client`: like the take of a
   * request, except that the header receives the related GUID and related
   * sequence number of the change (the identity of the request it
   * answers), not the identity of its sender.
   */
  method TakeResponse(id: Option<CString>, implementation: CString, buffers: Pool<InputBuffer>,
                      client: nat, header: RequestId, deserialize: CdrView -> bool)
    returns (ret: Ret, taken: bool)
    requires buffers.Valid() && buffers.Recyclable() && 16 <= header.writerGuid.Length
    modifies buffers, buffers.prev, buffers.next, header, header.writerGuid
    ensures buffers.Valid() && buffers.Recyclable()
    ensures ret == Ok <==> taken
    ensures var item := old(Found(buffers, OwnedBy(ClientEntity, client)));
      if !IsIdentifierValid(id, implementation) || item == Nil then
        && ret == (if IsIdentifierValid(id, implementation) then Error else IncorrectRmwImplementation)
        && buffers.Allocated == old(buffers.Allocated) && buffers.Free == old(buffers.Free)
        && buffers.Released == old(buffers.Released)
        && header.writerGuid[..] == old(header.writerGuid[..])
        && header.sequenceNumber == old(header.sequenceNumber)
      else
        && 0 <= item < buffers.records.Length
        && (ret == Ok || ret == Error)
        && header.writerGuid[..16] == GuidBytes(buffers.records[item].relatedWriterGuid)
        && header.writerGuid[16..] == old(header.writerGuid[16..])
        && header.sequenceNumber == JoinSequenceNumber(buffers.records[item].relatedSequenceNumber)
        && taken == deserialize(CdrInput(buffers.records[item]))
        && buffers.Allocated == Remove(old(buffers.Allocated), item)
        && buffers.Free == (if old(buffers.Releases(item)) then old(buffers.Free) else [item] + old(buffers.Free))
        && buffers.Released == if old(buffers.Releases(item)) then old(buffers.Released) + {item} else old(buffers.Released)
    ensures buffers.SettingsKept() && buffers.heapTop == old(buffers.heapTop)
  {
    taken := false;
    if !IsIdentifierValid(id, implementation) {
      return IncorrectRmwImplementation, taken;
    }
    var item := FindByOwner(buffers, OwnedBy(ClientEntity, client));
    if item == Nil {
      return Error, taken;
    }
    var b := buffers.records[item];
    StampHeader(header, b.relatedWriterGuid, b.relatedSequenceNumber);
    taken := DecodeAndRelease(buffers, item, deserialize);
    ret := if taken then Ok else Error;
  }

  /**
   * The correlation a service round trip keeps. A service that took a
   * request whose change carried `sn` from writer `requester` holds
   * `JoinSequenceNumber(sn)` and the GUID's bytes in its header; the
   * response built from that header carries exactly `sn` and `requester`
   * as related identity; and the client's take of that response writes
   * back the sequence id `rmw_send_request` returned and the requester's
   * GUID bytes.
   */
  lemma ResponseCorrelatesWithRequest(requester: Guid, sn: SequenceNumber, related: Guid, relatedSn: SequenceNumber)
    requires GuidBytes(related) == GuidBytes(requester)
    requires JoinSequenceNumber(relatedSn) == JoinSequenceNumber(sn)
    ensures related == requester && relatedSn == sn
  {
    GuidBytesRoundTrip(requester, GuidBytes(requester));
    GuidBytesRoundTrip(related, GuidBytes(related));
    SplitJoin(sn);
    SplitJoin(relatedSn);
  }
}
