/**
 * The name builders and the identifier check: topic names with the "rt"
 * prefix, the "rq"/"rr" request and reply topics of a service, DDS type
 * names of the form `ns::dds_::Name_`, all written through `snprintf` into
 * caller buffers, and the comparison of an entity's implementation
 * identifier with the shim's own.
 */
module Utils {
  import opened Common

  /** A C string: the characters in front of its terminating NUL. */
  type CString = s: string | '\0' !in s

  /** `INT_MAX` for the 32-bit `int` that `snprintf` returns. */
  const IntMax: int := 0x7FFF_FFFF

  /** The character at `i` of a C string, reading its NUL at the end. */
  function CharAt(s: CString, i: nat): int
  {
    if i < |s| then s[i] as int else 0
  }

  /** `strcmp`: the difference of the first pair of characters that differ, or 0. */
  function Strcmp(a: CString, b: CString): int
    decreases |a|
  {
    if a == [] || b == [] || a[0] != b[0] then CharAt(a, 0) - CharAt(b, 0)
    else Strcmp(a[1..], b[1..])
  }

  /** `strcmp` reports 0 exactly for two equal strings. */
  lemma {:induction false} StrcmpZeroIffEqual(a: CString, b: CString)
    ensures Strcmp(a, b) == 0 <==> a == b
    decreases |a|
  {
    if a == [] || b == [] {
      assert a != [] ==> a[0] in a;
      assert b != [] ==> b[0] in b;
    } else if a[0] != b[0] {
    } else {
      StrcmpZeroIffEqual(a[1..], b[1..]);
      assert a == [a[0]] + a[1..] && b == [b[0]] + b[1..];
    }
  }

  /**
   * `is_ertps_rmw_identifier_valid`: the identifier is present and spells
   * the shim's own identifier `implementation`.
   */
  function IsIdentifierValid(id: Option<CString>, implementation: CString): (valid: bool)
    ensures valid <==> id == Some(implementation)
  {
    if id.None? then false
    else
      StrcmpZeroIffEqual(id.value, implementation);
      Strcmp(id.value, implementation) == 0
  }

  /**
   * What `snprintf(buffer, size, ...)` leaves behind for the formatted text
   * `s`: the buffer's new contents (None when `size` is 0 and the buffer is
   * not written) and the returned count.
   */
  datatype Printed = Printed(text: Option<string>, count: int)

  /**
   * `snprintf`: at most `size - 1` characters of `s` followed by a NUL, and
   * the length of `s`, or -1 when that length does not fit in an `int`.
   */
  function Snprintf(s: string, size: size_t): (p: Printed)
    ensures p.text.None? <==> size == 0
    ensures p.text.Some? ==> p.text.value <= s
    ensures p.text.Some? ==> (p.text.value == s <==> |s| < size)
    ensures p.text.Some? && size <= |s| ==> |p.text.value| == size - 1
    ensures p.count == (if |s| <= IntMax then |s| else -1)
  {
    var n := if |s| < size then |s| else size - 1;
    Printed(if size == 0 then None else Some(s[..n]), if |s| <= IntMax then |s| else -1)
  }

  /** The request topic of a service: "rq", the name, "Request". */
  function RequestTopic(service: string): string
  {
    "rq" + service + "Request"
  }

  /** The reply topic of a service: "rr", the name, "Reply". */
  function ReplyTopic(service: string): string
  {
    "rr" + service + "Reply"
  }

  /** The outputs of `generate_service_topics`. */
  datatype ServiceTopics = ServiceTopics(request: Option<string>, reply: Option<string>, ret: int)

  /**
   * `generate_service_topics`: the request and reply topics of `service`,
   * each truncated to the buffer, and 1 whatever happened.
   */
  function GenerateServiceTopics(service: string, size: size_t): (r: ServiceTopics)
    ensures r.ret == 1
    ensures r.request.None? <==> size == 0
    ensures r.request.Some? ==> r.request.value <= RequestTopic(service)
    ensures r.request == Some(RequestTopic(service)) <==> |service| + 9 < size
    ensures 0 < size <= |service| + 9 ==> |r.request.value| == size - 1
    ensures r.reply.None? <==> size == 0
    ensures r.reply.Some? ==> r.reply.value <= ReplyTopic(service)
    ensures r.reply == Some(ReplyTopic(service)) <==> |service| + 7 < size
    ensures 0 < size <= |service| + 7 ==> |r.reply.value| == size - 1
  {
    ServiceTopics(Snprintf(RequestTopic(service), size).text,
                  Snprintf(ReplyTopic(service), size).text, 1)
  }

  /**
   * A buffer of at least three characters keeps the request and reply
   * topics of a service apart: they differ in their second character.
   */
  lemma RequestAndReplyDiffer(service: string, size: size_t)
    requires 3 <= size
    ensures var r := GenerateServiceTopics(service, size);
      r.request.Some? && r.reply.Some? && r.request.value != r.reply.value
  {
    var r := GenerateServiceTopics(service, size);
    assert r.request.value[1] == RequestTopic(service)[1] == 'q';
    assert r.reply.value[1] == ReplyTopic(service)[1] == 'r';
  }

  /** Distinct services have distinct request topics and distinct reply topics. */
  lemma {:induction false} ServiceTopicsInjective(a: string, b: string)
    requires a != b
    ensures RequestTopic(a) != RequestTopic(b)
    ensures ReplyTopic(a) != ReplyTopic(b)
  {
    assert RequestTopic(a)[2..|a| + 2] == a && RequestTopic(b)[2..|b| + 2] == b;
    assert ReplyTopic(a)[2..|a| + 2] == a && ReplyTopic(b)[2..|b| + 2] == b;
  }

  /** The type name a message is known by on the wire: `ns::dds_::Name_`, or `dds_::Name_` without a namespace. */
  function TypeName(ns: Option<string>, name: string): string
  {
    (if ns.Some? then ns.value + "::" else "") + "dds_::" + name + "_"
  }

  /** A type name's text and the buffer size `generate_type_name` reports for it. */
  datatype GeneratedName = GeneratedName(text: string, size: nat)

  /**
   * The size `generate_type_name` computes: "dds", "_", "::", the name, "_",
   * the namespace and the NUL. It has no term for the "::" that follows a
   * namespace.
   */
  function TypeNameSizeAsWritten(ns: Option<string>, name: string): nat
  {
    3 + 1 + 2 + |name| + 1 + (if ns.Some? then |ns.value| else 0) + 1
  }

  /**
   * `generate_type_name` as written: the buffer is first emptied, then
   * `snprintf` writes the type name truncated to the buffer; the size
   * returned is the one computed above.
   */
  function GenerateTypeNameAsWritten(ns: Option<string>, name: string, size: size_t): (r: GeneratedName)
    ensures r.text <= TypeName(ns, name)
    ensures r.text == TypeName(ns, name) <==> |TypeName(ns, name)| < size
    ensures size <= |TypeName(ns, name)| ==> |r.text| == (if size == 0 then 0 else size - 1)
    ensures r.size == |TypeName(ns, name)| + 1 - (if ns.Some? then 2 else 0)
  {
    var printed := Snprintf(TypeName(ns, name), size);
    GeneratedName(if printed.text.Some? then printed.text.value else "", TypeNameSizeAsWritten(ns, name))
  }

  /**
   * With a namespace, a buffer of exactly the reported size still cuts the
   * type name short: "pkg::dds_::Msg_" needs 16 bytes, the reported size is
   * 14, and a 14-byte buffer receives "pkg::dds_::Ms".
   */
  lemma TypeNameSizeTooSmall()
    ensures var r := GenerateTypeNameAsWritten(Some("pkg"), "Msg", 14);
      r.size == 14 && r.text == "pkg::dds_::Ms" && r.text != TypeName(Some("pkg"), "Msg")
  {
    var r := GenerateTypeNameAsWritten(Some("pkg"), "Msg", 14);
    assert TypeName(Some("pkg"), "Msg") == "pkg::dds_::Msg_";
    assert r.text == "pkg::dds_::Msg_"[..13];
  }

  /**
   * `generate_type_name` with the size it is meant to report, the length
   * of the full name plus its NUL: the buffer holds the whole name exactly
   * when it is at least that large, and a prefix of it otherwise.
   */
  function GenerateTypeName(ns: Option<string>, name: string, size: size_t): (r: GeneratedName)
    ensures r.text <= TypeName(ns, name)
    ensures r.text == TypeName(ns, name) <==> r.size <= size
    ensures r.size <= size || |r.text| == (if size == 0 then 0 else size - 1)
  {
    var printed := Snprintf(TypeName(ns, name), size);
    GeneratedName(if printed.text.Some? then printed.text.value else "", |TypeName(ns, name)| + 1)
  }

  /** The request and reply type names `generate_service_types` writes, and its result. */
  datatype ServiceTypes = ServiceTypes(request: string, reply: string, ret: int)

  /**
   * `generate_service_types`: the type names of the request and reply
   * messages of a service, each written into its own buffer of `size`
   * bytes; returns 0 whatever happened.
   */
  function GenerateServiceTypes(requestNs: Option<string>, requestName: string,
                                replyNs: Option<string>, replyName: string, size: size_t): (r: ServiceTypes)
    ensures r.ret == 0
    ensures r.request <= TypeName(requestNs, requestName)
    ensures r.request == TypeName(requestNs, requestName) <==> |TypeName(requestNs, requestName)| < size
    ensures size <= |TypeName(requestNs, requestName)| ==> |r.request| == (if size == 0 then 0 else size - 1)
    ensures r.reply <= TypeName(replyNs, replyName)
    ensures r.reply == TypeName(replyNs, replyName) <==> |TypeName(replyNs, replyName)| < size
    ensures size <= |TypeName(replyNs, replyName)| ==> |r.reply| == (if size == 0 then 0 else size - 1)
  {
    ServiceTypes(GenerateTypeName(requestNs, requestName, size).text,
                 GenerateTypeName(replyNs, replyName, size).text, 0)
  }

  /** The outputs of `generate_topic_name`. */
  datatype TopicName = TopicName(text: Option<string>, ret: int)

  /**
   * `generate_topic_name` as written: "rt" and the topic through
   * `snprintf`; the result is 0 only when the count is both negative and at
   * least the buffer size read as an `int`.
   */
  function GenerateTopicNameAsWritten(topic: string, size: size_t): (r: TopicName)
    ensures r.text.None? <==> size == 0
    ensures r.text.Some? ==> r.text.value <= "rt" + topic
    ensures r.text.Some? ==> (r.text.value == "rt" + topic <==> |topic| + 2 < size)
    ensures 0 < size <= |topic| + 2 ==> |r.text.value| == size - 1
    ensures |topic| + 2 <= IntMax ==> r.ret == |topic| + 2
    ensures |topic| + 2 > IntMax ==> r.ret == -1 || r.ret == 0
    ensures r.ret == 0 ==> |topic| + 2 > IntMax
  {
    var printed := Snprintf("rt" + topic, size);
    TopicName(printed.text,
              if printed.count < 0 && printed.count >= ToInt32(size) then 0 else printed.count)
  }

  /**
   * For a topic that does not fit, the guard lets the call report success:
   * "chatter" in a 4-byte buffer becomes "rtc" and the result is 9.
   */
  lemma TopicTruncationUnreported()
    ensures var r := GenerateTopicNameAsWritten("chatter", 4);
      r.text == Some("rtc") && r.ret == 9
  {
    assert ("rt" + "chatter")[..3] == "rtc";
  }

  /**
   * `generate_topic_name` with the guard it is meant to have: the result
   * is 0 when `snprintf` failed or cut the name short. For a buffer whose
   * size is a positive `int`, a non-zero result means the buffer holds the
   * whole name and the result is its length.
   */
  function GenerateTopicName(topic: string, size: size_t): (r: TopicName)
    ensures r.text.None? <==> size == 0
    ensures r.text.Some? ==> r.text.value <= "rt" + topic
    ensures 0 < size <= |topic| + 2 ==> |r.text.value| == size - 1
    ensures 0 < size <= IntMax ==>
      && (r.ret != 0 <==> r.text == Some("rt" + topic))
      && (r.ret != 0 ==> r.ret == |topic| + 2)
  {
    var printed := Snprintf("rt" + topic, size);
    TopicName(printed.text,
              if printed.count < 0 || printed.count >= ToInt32(size) then 0 else printed.count)
  }
}
