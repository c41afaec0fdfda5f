/** Protocol messages, their dictionary form, and the replies built from them. */
module Messages {
  import opened Common

  datatype Json =
    | JNull
    | JBool(b: bool)
    | JInt(i: int)
    | JReal(r: real)
    | JString(s: string)
    | JArray(items: seq<Json>)
    | JObject(fields: map<string, Json>)

  type Dict = map<string, Json>

  const PROTOCOL_VERSION: int := 1
  const MESSAGE_TTL_SECS: real := 60.0

  datatype MsgType =
    | TaskRequest | TaskResponse | TaskError | CapabilityQuery
    | CapabilityReply | AgentAnnounce | AgentWithdraw | Heartbeat

  function TypeName(t: MsgType): string {
    match t
    case TaskRequest => "TASK_REQUEST"
    case TaskResponse => "TASK_RESPONSE"
    case TaskError => "TASK_ERROR"
    case CapabilityQuery => "CAPABILITY_QUERY"
    case CapabilityReply => "CAPABILITY_REPLY"
    case AgentAnnounce => "AGENT_ANNOUNCE"
    case AgentWithdraw => "AGENT_WITHDRAW"
    case Heartbeat => "HEARTBEAT"
  }

  function TypeOf(name: string): Option<MsgType> {
    if name == "TASK_REQUEST" then Some(TaskRequest)
    else if name == "TASK_RESPONSE" then Some(TaskResponse)
    else if name == "TASK_ERROR" then Some(TaskError)
    else if name == "CAPABILITY_QUERY" then Some(CapabilityQuery)
    else if name == "CAPABILITY_REPLY" then Some(CapabilityReply)
    else if name == "AGENT_ANNOUNCE" then Some(AgentAnnounce)
    else if name == "AGENT_WITHDRAW" then Some(AgentWithdraw)
    else if name == "HEARTBEAT" then Some(Heartbeat)
    else None
  }

  datatype Message = Message(
    msgType: MsgType, srcNode: string, dstNode: string, srcAgent: string, dstAgent: string, task: string,
    payload: Dict, replyTo: string, ttl: int, msgId: string, sessionId: string, timestamp: real, protoVersion: int)

  /** Values taken from the environment for fields a dictionary does not have. */
  datatype Defaults = Defaults(msgId: string, sessionId: string, now: real)

  datatype ParseError = InvalidMsgType | WrongFieldType | MissingField

  // --- capabilities ------------------------------------------------------------------------

  datatype AgentCapability = AgentCapability(
    agentName: string, version: string, tasks: seq<string>, requiredModel: Option<string>)

  function Strings(items: seq<string>): seq<Json> {
    seq(|items|, i requires 0 <= i < |items| => JString(items[i]))
  }

  function CapabilityToDict(c: AgentCapability): Json {
    JObject(map[
      "agent_name" := JString(c.agentName),
      "version" := JString(c.version),
      "tasks" := JArray(Strings(c.tasks)),
      "required_model" := match c.requiredModel case None => JNull case Some(m) => JString(m)])
  }

  function GetString(d: Dict, key: string, default: string): Result<string, ParseError> {
    if key !in d then Ok(default) else if d[key].JString? then Ok(d[key].s) else Err(WrongFieldType)
  }

  function ParseStrings(items: seq<Json>): Result<seq<string>, ParseError> {
    if |items| == 0 then Ok([])
    else if !items[0].JString? then Err(WrongFieldType)
    else
      var rest := ParseStrings(items[1..]);
      if rest.Err? then rest else Ok([items[0].s] + rest.value)
  }

  function StringsAt(d: Dict, key: string): Result<seq<string>, ParseError> {
    if key !in d then Ok([]) else if d[key].JArray? then ParseStrings(d[key].items) else Err(WrongFieldType)
  }

  function CapabilityFromDict(j: Json): Result<AgentCapability, ParseError> {
    if !j.JObject? then Err(WrongFieldType)
    else if "agent_name" !in j.fields then Err(MissingField)
    else
      var d := j.fields;
      var name, version, tasks := GetString(d, "agent_name", ""), GetString(d, "version", "1.0.0"), StringsAt(d, "tasks");
      if name.Err? then Err(name.error)
      else if version.Err? then Err(version.error)
      else if tasks.Err? then Err(tasks.error)
      else if "required_model" !in d || d["required_model"].JNull?
      then Ok(AgentCapability(name.value, version.value, tasks.value, None))
      else if d["required_model"].JString?
      then Ok(AgentCapability(name.value, version.value, tasks.value, Some(d["required_model"].s)))
      else Err(WrongFieldType)
  }

  function Capabilities(caps: seq<AgentCapability>): seq<Json> {
    seq(|caps|, i requires 0 <= i < |caps| => CapabilityToDict(caps[i]))
  }

  function ParseCapabilities(items: seq<Json>): Result<seq<AgentCapability>, ParseError> {
    if |items| == 0 then Ok([])
    else
      var first, rest := CapabilityFromDict(items[0]), ParseCapabilities(items[1..]);
      if first.Err? then Err(first.error) else if rest.Err? then rest else Ok([first.value] + rest.value)
  }

  /** The capability list of a payload; absent means empty. */
  function CapabilitiesAt(payload: Dict): Result<seq<AgentCapability>, ParseError> {
    if "capabilities" !in payload then Ok([])
    else if !payload["capabilities"].JArray? then Err(WrongFieldType)
    else ParseCapabilities(payload["capabilities"].items)
  }

  lemma {:induction false} StringsRoundTrip(items: seq<string>)
    ensures ParseStrings(Strings(items)) == Ok(items)
  {
    if |items| > 0 {
      StringsRoundTrip(items[1..]);
      assert Strings(items)[1..] == Strings(items[1..]);
      assert [items[0]] + items[1..] == items;
    }
  }

  lemma CapabilityRoundTrip(c: AgentCapability)
    ensures CapabilityFromDict(CapabilityToDict(c)) == Ok(c)
  {
    StringsRoundTrip(c.tasks);
  }

  lemma {:induction false} CapabilitiesRoundTrip(caps: seq<AgentCapability>)
    ensures ParseCapabilities(Capabilities(caps)) == Ok(caps)
  {
    hide CapabilityToDict, CapabilityFromDict;
    if |caps| > 0 {
      CapabilityRoundTrip(caps[0]);
      CapabilitiesRoundTrip(caps[1..]);
      assert Capabilities(caps)[1..] == Capabilities(caps[1..]);
      assert [caps[0]] + caps[1..] == caps;
    }
  }

  function At(d: Dict, key: string, default: Json): Json {
    if key in d then d[key] else default
  }

  lemma {:induction false} StringsExact(items: seq<Json>, v: seq<string>)
    ensures ParseStrings(items) == Ok(v) <==> items == Strings(v)
  {
    if |items| > 0 && |v| > 0 {
      StringsExact(items[1..], v[1..]);
      assert Strings(v) == [JString(v[0])] + Strings(v[1..]) && items == [items[0]] + items[1..];
      assert v == [v[0]] + v[1..];
      if items == Strings(v) { assert items[1..] == Strings(v)[1..] == Strings(v[1..]); }
    }
  }

  /** What an object says of an agent, with the defaults for what it does not say. */
  predicate Describes(j: Json, c: AgentCapability) {
    && j.JObject? && "agent_name" in j.fields && j.fields["agent_name"] == JString(c.agentName)
    && At(j.fields, "version", JString("1.0.0")) == JString(c.version)
    && At(j.fields, "tasks", JArray([])) == JArray(Strings(c.tasks))
    && At(j.fields, "required_model", JNull) == (if c.requiredModel.None? then JNull else JString(c.requiredModel.value))
  }

  lemma CapabilityExact(j: Json, c: AgentCapability)
    ensures CapabilityFromDict(j) == Ok(c) <==> Describes(j, c)
  {
    hide ParseStrings;
    assert Strings([]) == [];
    if j.JObject? && "tasks" in j.fields && j.fields["tasks"].JArray? {
      StringsExact(j.fields["tasks"].items, c.tasks);
      var parsed := StringsAt(j.fields, "tasks");
      if parsed.Ok? { StringsExact(j.fields["tasks"].items, parsed.value); }
    }
    hide Strings;
    if |c.tasks| > 0 { assert Strings(c.tasks) != [] by { StringsLength(c.tasks); } }
  }

  lemma StringsLength(v: seq<string>)
    ensures |Strings(v)| == |v|
  {
  }

  lemma {:induction false} CapabilityListExact(items: seq<Json>, caps: seq<AgentCapability>)
    ensures ParseCapabilities(items) == Ok(caps) <==>
      |items| == |caps| && forall i :: 0 <= i < |caps| ==> Describes(items[i], caps[i])
  {
    hide CapabilityFromDict, Describes;
    if |items| > 0 && |caps| > 0 {
      CapabilityExact(items[0], caps[0]);
      CapabilityListExact(items[1..], caps[1..]);
      assert caps == [caps[0]] + caps[1..];
      if |items| == |caps| {
        assert forall i :: 0 < i < |caps| ==> items[i] == items[1..][i - 1] && caps[i] == caps[1..][i - 1];
        assert forall i :: 0 <= i < |caps| - 1 ==> items[1..][i] == items[i + 1] && caps[1..][i] == caps[i + 1];
      }
    }
  }

  /** A payload names agents exactly when its list, if it has one, describes them one by one. */
  lemma CapabilitiesExact(payload: Dict, caps: seq<AgentCapability>)
    ensures CapabilitiesAt(payload) == Ok(caps) <==>
      var listed := At(payload, "capabilities", JArray([]));
      listed.JArray? && |listed.items| == |caps| && forall i :: 0 <= i < |caps| ==> Describes(listed.items[i], caps[i])
  {
    hide Describes;
    if "capabilities" in payload && payload["capabilities"].JArray? {
      CapabilityListExact(payload["capabilities"].items, caps);
    }
  }

  // --- the dictionary form ---------------------------------------------------------------------

  function ToDict(m: Message): Dict {
    map[
      "proto_version" := JInt(m.protoVersion),
      "msg_type" := JString(TypeName(m.msgType)),
      "msg_id" := JString(m.msgId),
      "session_id" := JString(m.sessionId),
      "src_node" := JString(m.srcNode),
      "src_agent" := JString(m.srcAgent),
      "dst_node" := JString(m.dstNode),
      "dst_agent" := JString(m.dstAgent),
      "task" := JString(m.task),
      "payload" := JObject(m.payload),
      "reply_to" := JString(m.replyTo),
      "timestamp" := JReal(m.timestamp),
      "ttl" := JInt(m.ttl)]
  }

  function GetInt(d: Dict, key: string, default: int): Result<int, ParseError> {
    if key !in d then Ok(default) else if d[key].JInt? then Ok(d[key].i) else Err(WrongFieldType)
  }

  function GetReal(d: Dict, key: string, default: real): Result<real, ParseError> {
    if key !in d then Ok(default) else if d[key].JReal? then Ok(d[key].r) else Err(WrongFieldType)
  }

  function GetDict(d: Dict, key: string): Result<Dict, ParseError> {
    if key !in d then Ok(map[]) else if d[key].JObject? then Ok(d[key].fields) else Err(WrongFieldType)
  }

  function TypeAt(d: Dict): Option<MsgType> {
    if "msg_type" in d && d["msg_type"].JString? then TypeOf(d["msg_type"].s) else None
  }

  function FromDict(d: Dict, env: Defaults): Result<Message, ParseError> {
    if TypeAt(d).None? then Err(InvalidMsgType)
    else
      var msgId, session := GetString(d, "msg_id", env.msgId), GetString(d, "session_id", env.sessionId);
      var src, dst := GetString(d, "src_node", ""), GetString(d, "dst_node", "");
      var srcAgent, dstAgent := GetString(d, "src_agent", ""), GetString(d, "dst_agent", "");
      var task, replyTo := GetString(d, "task", ""), GetString(d, "reply_to", "");
      var payload, timestamp := GetDict(d, "payload"), GetReal(d, "timestamp", env.now);
      var ttl, version := GetInt(d, "ttl", 8), GetInt(d, "proto_version", PROTOCOL_VERSION);
      if msgId.Ok? && session.Ok? && src.Ok? && dst.Ok? && srcAgent.Ok? && dstAgent.Ok? && task.Ok? && replyTo.Ok?
         && payload.Ok? && timestamp.Ok? && ttl.Ok? && version.Ok?
      then Ok(Message(TypeAt(d).value, src.value, dst.value, srcAgent.value, dstAgent.value, task.value, payload.value,
                      replyTo.value, ttl.value, msgId.value, session.value, timestamp.value, version.value))
      else Err(WrongFieldType)
  }

  lemma TypeRoundTrip(t: MsgType)
    ensures TypeOf(TypeName(t)) == Some(t)
  {
  }

  /** The dictionary form loses nothing, whatever the defaults. */
  lemma DictRoundTrip(m: Message, env: Defaults)
    ensures FromDict(ToDict(m), env) == Ok(m)
  {
    hide TypeOf, TypeName;
    TypeRoundTrip(m.msgType);
    var d := ToDict(m);
    assert GetString(d, "msg_id", env.msgId) == Ok(m.msgId) && GetString(d, "session_id", env.sessionId) == Ok(m.sessionId);
    assert GetString(d, "src_node", "") == Ok(m.srcNode) && GetString(d, "dst_node", "") == Ok(m.dstNode);
    assert GetString(d, "src_agent", "") == Ok(m.srcAgent) && GetString(d, "dst_agent", "") == Ok(m.dstAgent);
    assert GetString(d, "task", "") == Ok(m.task) && GetString(d, "reply_to", "") == Ok(m.replyTo);
    assert GetDict(d, "payload") == Ok(m.payload) && GetReal(d, "timestamp", env.now) == Ok(m.timestamp);
    assert GetInt(d, "ttl", 8) == Ok(m.ttl) && GetInt(d, "proto_version", PROTOCOL_VERSION) == Ok(m.protoVersion);
    assert TypeAt(d) == Some(m.msgType);
    hide GetString, GetDict, GetReal, GetInt, TypeAt, ToDict;
  }

  /** What a dictionary says of a message, with the defaults for what it does not say; other keys do not matter. */
  function Overlay(d: Dict, env: Defaults): Dict
    requires "msg_type" in d
  {
    map[
      "proto_version" := At(d, "proto_version", JInt(1)),
      "msg_type" := d["msg_type"],
      "msg_id" := At(d, "msg_id", JString(env.msgId)),
      "session_id" := At(d, "session_id", JString(env.sessionId)),
      "src_node" := At(d, "src_node", JString("")),
      "src_agent" := At(d, "src_agent", JString("")),
      "dst_node" := At(d, "dst_node", JString("")),
      "dst_agent" := At(d, "dst_agent", JString("")),
      "task" := At(d, "task", JString("")),
      "payload" := At(d, "payload", JObject(map[])),
      "reply_to" := At(d, "reply_to", JString("")),
      "timestamp" := At(d, "timestamp", JReal(env.now)),
      "ttl" := At(d, "ttl", JInt(8))]
  }

  /** Key by key, the dictionary with its defaults is that of the message. */
  predicate Says(d: Dict, env: Defaults, m: Message) {
    && "msg_type" in d && d["msg_type"] == JString(TypeName(m.msgType))
    && At(d, "proto_version", JInt(1)) == JInt(m.protoVersion) && At(d, "msg_id", JString(env.msgId)) == JString(m.msgId)
    && At(d, "session_id", JString(env.sessionId)) == JString(m.sessionId)
    && At(d, "src_node", JString("")) == JString(m.srcNode) && At(d, "src_agent", JString("")) == JString(m.srcAgent)
    && At(d, "dst_node", JString("")) == JString(m.dstNode) && At(d, "dst_agent", JString("")) == JString(m.dstAgent)
    && At(d, "task", JString("")) == JString(m.task) && At(d, "payload", JObject(map[])) == JObject(m.payload)
    && At(d, "reply_to", JString("")) == JString(m.replyTo) && At(d, "timestamp", JReal(env.now)) == JReal(m.timestamp)
    && At(d, "ttl", JInt(8)) == JInt(m.ttl)
  }

  lemma TypeNamed(name: string, t: MsgType)
    ensures TypeOf(name) == Some(t) <==> name == TypeName(t)
  {
  }

  lemma ParsedSays(d: Dict, env: Defaults, m: Message)
    ensures FromDict(d, env) == Ok(m) <==> Says(d, env, m)
  {
    if "msg_type" in d && d["msg_type"].JString? { TypeNamed(d["msg_type"].s, m.msgType); }
    hide TypeOf, TypeName;
  }

  lemma SaysOverlay(d: Dict, env: Defaults, m: Message)
    ensures Says(d, env, m) <==> "msg_type" in d && ToDict(m) == Overlay(d, env)
  {
    hide TypeName, At;
    if "msg_type" in d && ToDict(m) == Overlay(d, env) {
      FirstFields(m);
      MoreFields(m);
      FirstOverlaid(d, env);
      MoreOverlaid(d, env);
      hide ToDict, Overlay;
    }
  }

  lemma FirstFields(m: Message)
    ensures forall k :: k in ["proto_version", "msg_type", "msg_id", "session_id", "src_node", "src_agent"] ==> k in ToDict(m)
    ensures ToDict(m)["proto_version"] == JInt(m.protoVersion) && ToDict(m)["msg_type"] == JString(TypeName(m.msgType))
    ensures ToDict(m)["msg_id"] == JString(m.msgId) && ToDict(m)["session_id"] == JString(m.sessionId)
    ensures ToDict(m)["src_node"] == JString(m.srcNode) && ToDict(m)["src_agent"] == JString(m.srcAgent)
  {
    hide TypeName;
  }

  lemma MoreFields(m: Message)
    ensures forall k :: k in ["dst_node", "dst_agent", "task", "payload", "reply_to", "timestamp", "ttl"] ==> k in ToDict(m)
    ensures ToDict(m)["dst_node"] == JString(m.dstNode) && ToDict(m)["dst_agent"] == JString(m.dstAgent)
    ensures ToDict(m)["task"] == JString(m.task) && ToDict(m)["payload"] == JObject(m.payload)
    ensures ToDict(m)["reply_to"] == JString(m.replyTo) && ToDict(m)["timestamp"] == JReal(m.timestamp)
    ensures ToDict(m)["ttl"] == JInt(m.ttl)
  {
    hide TypeName;
  }

  lemma FirstOverlaid(d: Dict, env: Defaults)
    requires "msg_type" in d
    ensures var o := Overlay(d, env);
      && (forall k :: k in ["proto_version", "msg_type", "msg_id", "session_id", "src_node", "src_agent"] ==> k in o)
      && o["proto_version"] == At(d, "proto_version", JInt(1)) && o["msg_type"] == d["msg_type"]
      && o["msg_id"] == At(d, "msg_id", JString(env.msgId)) && o["session_id"] == At(d, "session_id", JString(env.sessionId))
      && o["src_node"] == At(d, "src_node", JString("")) && o["src_agent"] == At(d, "src_agent", JString(""))
  {
    hide At;
  }

  lemma MoreOverlaid(d: Dict, env: Defaults)
    requires "msg_type" in d
    ensures var o := Overlay(d, env);
      && (forall k :: k in ["dst_node", "dst_agent", "task", "payload", "reply_to", "timestamp", "ttl"] ==> k in o)
      && o["dst_node"] == At(d, "dst_node", JString("")) && o["dst_agent"] == At(d, "dst_agent", JString(""))
      && o["task"] == At(d, "task", JString("")) && o["payload"] == At(d, "payload", JObject(map[]))
      && o["reply_to"] == At(d, "reply_to", JString("")) && o["timestamp"] == At(d, "timestamp", JReal(env.now))
      && o["ttl"] == At(d, "ttl", JInt(8))
  {
    hide At;
  }

  /** A dictionary is accepted exactly when, with the defaults filled in, it is the dictionary form of a message, and then
      it is read as that message. */
  lemma ParsesWhatItSays(d: Dict, env: Defaults, m: Message)
    ensures FromDict(d, env) == Ok(m) <==> "msg_type" in d && ToDict(m) == Overlay(d, env)
  {
    hide FromDict, ToDict, Overlay, Says;
    ParsedSays(d, env, m);
    SaysOverlay(d, env, m);
  }

  // --- factories -----------------------------------------------------------------------------------

  function NewTaskRequest(src: string, dst: string, task: string, payload: Dict, srcAgent: string, dstAgent: string,
                          id: string, session: string, now: real): Message {
    Message(TaskRequest, src, dst, srcAgent, dstAgent, task, payload, "", 8, id, session, now, PROTOCOL_VERSION)
  }

  function NewTaskError(src: string, dst: string, replyTo: string, session: string, task: string, error: string,
                        srcAgent: string, id: string, now: real): Message {
    Message(TaskError, src, dst, srcAgent, "", task, map["error" := JString(error)], replyTo, 8, id, session, now, PROTOCOL_VERSION)
  }

  function MakeReply(m: Message, msgType: MsgType, payload: Dict, src: string, srcAgent: string, id: string, now: real): Message {
    Message(msgType, src, m.srcNode, srcAgent, m.srcAgent, m.task, payload, m.msgId, 8, id, m.sessionId, now, PROTOCOL_VERSION)
  }

  function NewCapabilityReply(src: string, dst: string, replyTo: string, caps: seq<AgentCapability>,
                              id: string, session: string, now: real): Message {
    Message(CapabilityReply, src, dst, "", "", "", map["capabilities" := JArray(Capabilities(caps))], replyTo, 8,
            id, session, now, PROTOCOL_VERSION)
  }

  /** What may be sent unprompted besides requests. */
  function NewNotice(msgType: MsgType, src: string, dst: string, payload: Dict, id: string, session: string, now: real): Message {
    Message(msgType, src, dst, "", "", "", payload, "", 8, id, session, now, PROTOCOL_VERSION)
  }

  predicate IsExpired(m: Message, now: real) {
    now - m.timestamp > MESSAGE_TTL_SECS
  }

  /** The error text a TASK_ERROR carries to the caller. */
  function ErrorText(m: Message): Json {
    if "error" in m.payload then m.payload["error"] else JString("unknown error")
  }

  /** A reply that names the request, keeps its session and task, and goes back to its sender. */
  predicate Answers(reply: Message, request: Message, node: string) {
    && reply.msgType in {TaskResponse, TaskError} && reply.srcNode == node && reply.dstNode == request.srcNode
    && reply.replyTo == request.msgId && reply.sessionId == request.sessionId && reply.task == request.task
  }
}
