/**
 * The framebuffer and renderbuffer namespaces (guest/opengl/framebuffer.cpp):
 * a NameTable whose payload says whether the name's object exists yet. A null
 * table is a failed allocation.
 */
module ObjectNames {
  import opened Words
  import opened ProbeTable

  method CreateObject(table: NameTable?<bool>, limit: u32, name: u32) returns (created: bool)
    requires table != null ==> table.Valid() && table.Count <= limit && 2 * limit <= table.slots
    requires name != 0
    modifies if table == null then {} else {table, table.Entries}
    ensures table == null ==> !created
    ensures table != null ==> table.Valid() && table.Count <= limit && table.Next == old(table.Next)
    ensures table != null ==> (created <==> name in old(table.Map()) || old(table.Count) < limit)
    ensures table != null ==> table.Map() == if created then old(table.Map())[name := true] else old(table.Map())
  {
    hide Chained, Clean, Contents, PassesTo, PowerOfTwo;
    if table == null {
      return false;
    }
    var e := table.Find(name);
    if table.Entries[e].Name == 0 && table.Count >= limit {
      return false;
    }
    table.Store(e, name, true);
    return true;
  }

  method ObjectExists(table: NameTable?<bool>, name: u32) returns (exists_: bool)
    requires table != null ==> table.Valid() && table.vacant == false
    ensures exists_ <==> table != null && name != 0 && name in table.Map() && table.Map()[name]
  {
    if table == null || name == 0 {
      return false;
    }
    var e := table.Find(name);
    return table.Entries[e].Payload;
  }

  /** ForgetName: the answer tells whether the host has an object to delete too. */
  method ForgetName(table: NameTable?<bool>, name: u32) returns (object_: bool)
    requires table != null ==> table.Valid()
    modifies if table == null then {} else {table, table.Entries}
    ensures table != null ==> table.Valid() && table.Count <= old(table.Count) && table.Next == old(table.Next)
    ensures table != null ==> table.Map() == old(table.Map()) - {name}
    ensures object_ <==> table != null && name in old(table.Map()) && old(table.Map())[name]
  {
    hide Chained, Clean, Contents, PassesTo, PowerOfTwo;
    if table == null {
      return false;
    }
    if name == 0 {
      NoZeroName(table);
      return false;
    }
    var e := table.Find(name);
    if table.Entries[e].Name == 0 {
      return false;
    }
    object_ := table.Entries[e].Payload;
    table.Remove(e);
  }

  lemma NoZeroName<T>(table: NameTable<T>)
    requires table.Valid()
    ensures 0 !in table.Map() && table.Map() - {0} == table.Map()
  {
  }

  datatype Request = Generate(count: u32) | Create(name: u32) | Exists(name: u32) | Forget(name: u32)
  datatype Reply = Names(names: seq<u32>) | OutOfMemory | Answer(yes: bool)

  /** What a plain map of at most `limit` names would answer, and the map it would leave. */
  ghost predicate PlainStep(m: map<u32, bool>, limit: u32, request: Request, reply: Reply, m': map<u32, bool>) {
    match request
    case Generate(count) =>
      if count <= limit - |m|
      then reply.Names? && |reply.names| == count && Fresh(m.Keys, reply.names) && m' == Reserved(m, reply.names, false)
      else reply == OutOfMemory && m' == m
    case Create(name) =>
      reply == Answer(name in m || |m| < limit) && m' == if reply.yes then m[name := true] else m
    case Exists(name) =>
      reply == Answer(name in m && m[name]) && m' == m
    case Forget(name) =>
      reply == Answer(name in m && m[name]) && m' == m - {name}
  }

  /** The replies are those of a plain map that starts empty and passes through `states`. */
  ghost predicate PlainRun(states: seq<map<u32, bool>>, limit: u32, requests: seq<Request>, replies: seq<Reply>) {
    && |states| == |requests| + 1 && |replies| == |requests| && states[0] == map[]
    && forall i :: 0 <= i < |requests| ==> PlainStep(states[i], limit, requests[i], replies[i], states[i + 1])
  }

  /** One call of the namespace answers as the plain map does. */
  method Serve(table: NameTable<bool>, limit: u32, request: Request) returns (reply: Reply)
    requires table.Valid() && table.vacant == false && table.Count <= limit && 2 * limit <= table.slots
    requires request.Create? ==> request.name != 0
    modifies table, table.Entries
    ensures table.Valid() && table.Count <= limit
    ensures PlainStep(old(table.Map()), limit, request, reply, table.Map())
  {
    hide Fresh, Reserved, Chained, Clean, Contents, PassesTo, PowerOfTwo, StopsAt;
    match request {
      case Generate(count) =>
        var names, reserved := table.Generate(limit, count);
        reply := if reserved then Names(names) else OutOfMemory;
      case Create(name) =>
        var yes := CreateObject(table, limit, name);
        reply := Answer(yes);
      case Exists(name) =>
        var yes := ObjectExists(table, name);
        if name == 0 {
          NoZeroName(table);
        }
        reply := Answer(yes);
      case Forget(name) =>
        var yes := ForgetName(table, name);
        reply := Answer(yes);
    }
  }

  /** Any run of calls from the empty table answers as a plain map of at most limit names would. */
  method RunAgreesWithMap(slots: nat, limit: u32, requests: seq<Request>) returns (replies: seq<Reply>)
    requires PowerOfTwo(slots) && slots <= HALF && 2 * limit <= slots
    requires forall i :: 0 <= i < |requests| && requests[i].Create? ==> requests[i].name != 0
    ensures exists states :: PlainRun(states, limit, requests, replies)
  {
    hide Chained, Clean, PlainStep, Contents, PowerOfTwo;
    var table := new NameTable<bool>(slots, false);
    replies := [];
    ghost var states := [table.Map()];
    for i := 0 to |requests|
      invariant fresh(table) && fresh(table.Entries)
      invariant table.Valid() && table.vacant == false && table.slots == slots && table.Count <= limit
      invariant PlainRun(states, limit, requests[..i], replies) && states[i] == table.Map()
    {
      var reply := Serve(table, limit, requests[i]);
      assert requests[..i + 1] == requests[..i] + [requests[i]];
      replies, states := replies + [reply], states + [table.Map()];
    }
    assert requests[..|requests|] == requests;
  }
}
