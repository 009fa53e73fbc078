/**
 * The graph bookkeeping: the `ParticipantEntitiesInfo` message that the
 * shim keeps for its participant, with one entry per node and, per node,
 * the GIDs of its readers and writers, and its publication on the
 * discovery topic.
 */
module Graph {
  import opened Common
  import opened Utils

  /**
   * `rmw_dds_common::msg::NodeEntitiesInfo`: a node's name and namespace
   * and the GIDs of its readers and writers. A GID sequence is the prefix
   * of its static storage that its `size` covers; each element holds the
   * 16 bytes the shim writes.
   */
  datatype NodeEntitiesInfo = NodeEntitiesInfo(
    name: CString,
    namespace: CString,
    readers: seq<seq<byte>>,
    writers: seq<seq<byte>>)

  /** The fields of `ParticipantEntitiesInfo` the codec sees: the participant's GID bytes and its nodes. */
  datatype GraphMessage = GraphMessage(gid: seq<byte>, nodes: seq<NodeEntitiesInfo>)

  /** The codec respects the output buffer: what it writes fits behind the header. */
  ghost predicate Fits(serialize: GraphMessage -> Option<seq<byte>>, size: nat)
  {
    forall m :: serialize(m).Some? ==> |serialize(m).value| + 4 <= size
  }

  /** The change `rmw_graph_publish` hands to the graph writer for the codec's output `serialized`. */
  function Frame(serialized: Option<seq<byte>>): (sent: Option<Outgoing>)
    ensures sent.Some? <==> serialized.Some?
    ensures sent.Some? ==> |sent.value.data| == |serialized.value| + 4
  {
    if serialized.Some? then Some(Outgoing(EncapsulationHeader + serialized.value, None, None)) else None
  }

  /** The position of the first node called `name`, if any. */
  function FirstNamed(nodes: seq<NodeEntitiesInfo>, name: CString): (k: Option<nat>)
    ensures k.None? <==> forall j | 0 <= j < |nodes| :: nodes[j].name != name
    ensures k.Some? ==> k.value < |nodes| && nodes[k.value].name == name
    ensures k.Some? ==> forall j | 0 <= j < k.value :: nodes[j].name != name
  {
    if nodes == [] then None
    else if nodes[0].name == name then Some(0)
    else
      var k := FirstNamed(nodes[1..], name);
      assert forall j | 0 < j < |nodes| :: nodes[1..][j - 1] == nodes[j];
      if k.None? then None else Some(k.value + 1)
  }

  /** A node with one more GID: on its readers when `isReader`, on its writers otherwise. */
  function WithGid(node: NodeEntitiesInfo, gid: seq<byte>, isReader: bool): NodeEntitiesInfo
  {
    if isReader then node.(readers := node.readers + [gid]) else node.(writers := node.writers + [gid])
  }

  /** The number of GIDs listed under the nodes `nodes`. */
  function GidCount(nodes: seq<NodeEntitiesInfo>): nat
  {
    if nodes == [] then 0 else |nodes[0].readers| + |nodes[0].writers| + GidCount(nodes[1..])
  }

  /** Adding a GID to one node adds exactly one GID to the message, and leaves the node's name and namespace. */
  lemma {:induction false} WithGidAddsOne(nodes: seq<NodeEntitiesInfo>, k: nat, gid: seq<byte>, isReader: bool)
    requires k < |nodes|
    ensures GidCount(nodes[k := WithGid(nodes[k], gid, isReader)]) == GidCount(nodes) + 1
    ensures WithGid(nodes[k], gid, isReader).name == nodes[k].name
    ensures WithGid(nodes[k], gid, isReader).namespace == nodes[k].namespace
    decreases k
  {
    var updated := nodes[k := WithGid(nodes[k], gid, isReader)];
    if k > 0 {
      WithGidAddsOne(nodes[1..], k - 1, gid, isReader);
      assert updated[1..] == nodes[1..][k - 1 := WithGid(nodes[k], gid, isReader)];
    } else {
      assert updated[1..] == nodes[1..];
    }
  }

  /**
   * `context->graph_info` with the static output buffer of
   * `rmw_graph_publish`: the participant's GID storage, the node sequence
   * (its static storage and its `size`).
   */
  class GraphInfo {
    const gid: array<byte>
    const nodes: array<NodeEntitiesInfo>
    var nodeCount: nat
    const output: array<byte>

    ghost predicate Valid()
      reads this
    {
      nodeCount <= nodes.Length && 13 <= gid.Length && 4 <= output.Length && gid != output
    }

    /** The message the codec serializes: the GID and the first `size` nodes. */
    function Message(): GraphMessage
      requires Valid()
      reads this, gid, nodes
    {
      GraphMessage(gid[..], nodes[..nodeCount])
    }

    /** Message storage as `micro_ros_utilities_create_static_message_memory` leaves it. */
    constructor (gidStorage: nat, nodeCapacity: nat, outputSize: nat, blank: NodeEntitiesInfo)
      requires 13 <= gidStorage && 4 <= outputSize
      ensures Valid() && fresh(gid) && fresh(nodes) && fresh(output)
      ensures gid.Length == gidStorage && nodes.Length == nodeCapacity && output.Length == outputSize
      ensures nodeCount == 0
    {
      gid := new byte[gidStorage](_ => 0);
      nodes := new NodeEntitiesInfo[nodeCapacity](_ => blank);
      output := new byte[outputSize](_ => 0);
      nodeCount := 0;
    }

    /**
     * The participant part of `rmw_graph_init`: the GID starts with the
     * participant's 12-byte GUID prefix followed by its participant id, the
     * message lists no node, and that message is published.
     */
    method InitParticipant(prefix: seq<byte>, participantId: byte, serialize: GraphMessage -> Option<seq<byte>>)
      returns (sent: Option<Outgoing>)
      requires Valid() && |prefix| == 12 && Fits(serialize, output.Length)
      modifies this, gid, output
      ensures Valid()
      ensures gid[..12] == prefix && gid[12] == participantId
      ensures gid[13..] == old(gid[13..])
      ensures nodeCount == 0 && Message().nodes == []
      ensures sent == Frame(serialize(GraphMessage(gid[..], [])))
    {
      CopyRange(prefix, 0, 12, gid, 0);
      gid[12] := participantId;
      nodeCount := 0;
      var _, s := Publish(serialize);
      sent := s;
    }

    /**
     * `rmw_graph_publish`: the header, then the codec's output for the
     * current message, into the static output buffer; on success the frame
     * of the serialized length plus 4 is handed to the graph writer,
     * otherwise the result is an error.
     */
    method Publish(serialize: GraphMessage -> Option<seq<byte>>) returns (ret: Ret, sent: Option<Outgoing>)
      requires Valid() && Fits(serialize, output.Length)
      modifies output
      ensures ret == (if serialize(Message()).Some? then Ok else Error)
      ensures sent == Frame(serialize(Message()))
      ensures output[..4] == EncapsulationHeader
    {
      var size := WriteFrame(output, serialize(Message()));
      if size.Some? {
        sent := Some(Outgoing(output[..size.value], None, None));
        ret := Ok;
      } else {
        sent := None;
        ret := Error;
      }
    }

    /**
     * `rmw_graph_add_node`: the slot at the sequence's `size` receives the
     * node's name and namespace, keeping the GID sequences it holds, and
     * `size` grows by one; then the message is published. The slot is not
     * checked against the sequence's capacity, so the caller must leave
     * room. The function has no return statement, so no result is modelled.
     */
    method AddNode(name: CString, namespace: CString, serialize: GraphMessage -> Option<seq<byte>>)
      returns (sent: Option<Outgoing>)
      requires Valid() && nodeCount < nodes.Length && Fits(serialize, output.Length)
      modifies this, nodes, output
      ensures Valid()
      ensures nodeCount == old(nodeCount) + 1
      ensures nodes[..] == old(nodes[..])[old(nodeCount) := old(nodes[nodeCount]).(name := name, namespace := namespace)]
      ensures Message().nodes == old(Message().nodes) + [old(nodes[nodeCount]).(name := name, namespace := namespace)]
      ensures sent == Frame(serialize(Message()))
    {
      var i := nodeCount;
      nodes[i] := nodes[i].(name := name, namespace := namespace);
      nodeCount := nodeCount + 1;
      assert nodes[..nodeCount] == nodes[..i] + [nodes[i]];
      var _, s := Publish(serialize);
      sent := s;
    }

    /**
     * The matched branch of `rmw_graph_add_entity`: the next element of the
     * node's reader or writer GIDs receives the 16 bytes of `gid` by three
     * copies, and the sequence's `size` grows by one.
     */
    method AppendGid(i: nat, gid: Guid, isReader: bool)
      requires i < nodes.Length
      modifies nodes
      ensures nodes[..] == old(nodes[..])[i := WithGid(old(nodes[i]), GuidBytes(gid), isReader)]
    {
      var storage := new byte[16](_ => 0);
      CopyGuid(GuidBytes(gid), storage);
      assert storage[..] == storage[..16];
      nodes[i] := WithGid(nodes[i], storage[..], isReader);
    }

    /**
     * `rmw_graph_add_entity`: the first node called `name` receives the 16
     * bytes of `gid`, by three copies, at the end of its reader GIDs when
     * `isReader` and of its writer GIDs otherwise; no other node and no
     * other sequence changes, and without such a node nothing changes. The
     * message is published either way. No result is modelled, as for
     * `AddNode`.
     */
    method AddEntity(name: CString, gid: Guid, isReader: bool, serialize: GraphMessage -> Option<seq<byte>>)
      returns (sent: Option<Outgoing>)
      requires Valid() && Fits(serialize, output.Length)
      modifies nodes, output
      ensures var k := FirstNamed(old(nodes[..nodeCount]), name);
        nodes[..] == if k.None? then old(nodes[..]) else old(nodes[..])[k.value := WithGid(old(nodes[k.value]), GuidBytes(gid), isReader)]
      ensures GidCount(Message().nodes) ==
        old(GidCount(Message().nodes)) + (if FirstNamed(old(nodes[..nodeCount]), name).None? then 0 else 1)
      ensures sent == Frame(serialize(Message()))
    {
      ghost var before := nodes[..];
      var i := 0;
      while i < nodeCount
        invariant 0 <= i <= nodeCount && nodes[..] == before
        invariant forall j | 0 <= j < i :: nodes[j].name != name
      {
        StrcmpZeroIffEqual(name, nodes[i].name);
        if Strcmp(name, nodes[i].name) == 0 {
          AppendGid(i, gid, isReader);
          WithGidAddsOne(before[..nodeCount], i, GuidBytes(gid), isReader);
          assert nodes[..nodeCount] == before[..nodeCount][i := WithGid(before[i], GuidBytes(gid), isReader)];
          break;
        }
        i := i + 1;
      }
      var _, s := Publish(serialize);
      sent := s;
    }
  }
}
