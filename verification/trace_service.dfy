/** Looking up one execution of an application by its external trace id
    (`CustomTraceService`). Rows carry only the columns the lookup reads;
    `createdAt` is the creation time as an integer. */
module TraceService {
  import opened Base
  import opened Sorting

  type Id = string

  /** The application modes the lookup distinguishes; every other mode is
      `OtherMode`. */
  datatype AppMode = Workflow | AdvancedChat | Chat | AgentChat | Completion | OtherMode

  datatype App = App(id: Id, tenantId: Id, mode: AppMode)

  datatype WorkflowRun = WorkflowRun(id: Id, appId: Id, tenantId: Id, traceId: Option<string>,
                                     createdAt: int)

  /** `workflowRunId` is the message's link to its run; an empty or NULL
      link is no link. */
  datatype Message = Message(id: Id, appId: Id, traceId: Option<string>, workflowRunId: Option<Id>,
                             createdAt: int)

  datatype NodeExecution = NodeExecution(id: Id, workflowRunId: Id, index: int)

  datatype AgentThought = AgentThought(id: Id, messageId: Id, position: int)

  datatype TraceDb = TraceDb(runs: seq<WorkflowRun>, messages: seq<Message>,
                             nodes: seq<NodeExecution>, thoughts: seq<AgentThought>)

  /** The position of the row `ORDER BY key DESC ... .first()` returns
      among those satisfying `p`: a row with the greatest key, the earliest
      such row in table order. */
  function Latest<T>(s: seq<T>, p: T -> bool, key: T -> int): (r: Option<nat>)
    ensures r.None? <==> forall k :: 0 <= k < |s| ==> !p(s[k])
    ensures r.Some? ==> r.value < |s| && p(s[r.value])
    ensures r.Some? ==> forall k :: 0 <= k < |s| && p(s[k]) ==> key(s[k]) <= key(s[r.value])
    ensures r.Some? ==> forall k :: 0 <= k < r.value && p(s[k]) ==> key(s[k]) < key(s[r.value])
  {
    if |s| == 0 then None
    else
      var rest := Latest(s[1..], p, key);
      if !p(s[0]) then
        (match rest case None => None case Some(k) => Some(k + 1))
      else match rest
        case None => Some(0)
        case Some(k) => if key(s[k + 1]) > key(s[0]) then Some(k + 1) else Some(0)
  }

  /** The position of the first row satisfying `p`: `.first()` without an
      ordering. */
  function First<T>(s: seq<T>, p: T -> bool): (r: Option<nat>)
    ensures r.None? <==> forall k :: 0 <= k < |s| ==> !p(s[k])
    ensures r.Some? ==> r.value < |s| && p(s[r.value])
    ensures r.Some? ==> forall k :: 0 <= k < r.value ==> !p(s[k])
  {
    if |s| == 0 then None
    else if p(s[0]) then Some(0)
    else match First(s[1..], p)
      case None => None
      case Some(k) => Some(k + 1)
  }

  /** The row at an optional position. */
  function At<T>(s: seq<T>, i: Option<nat>): (r: Option<T>)
    requires i.Some? ==> i.value < |s|
    ensures r.Some? <==> i.Some?
    ensures r.Some? ==> r.value == s[i.value]
  {
    match i
    case None => None
    case Some(k) => Some(s[k])
  }

  /** Runs of the application carrying the trace id. */
  function IsTracedRun(app: App, traceId: string): WorkflowRun -> bool {
    (w: WorkflowRun) => w.appId == app.id && w.tenantId == app.tenantId && w.traceId == Some(traceId)
  }

  /** Messages of the application carrying the trace id. */
  function IsTracedMessage(app: App, traceId: string): Message -> bool {
    (m: Message) => m.appId == app.id && m.traceId == Some(traceId)
  }

  /** Messages of the application linked to a run. */
  function IsMessageOfRun(app: App, runId: Id): Message -> bool {
    (m: Message) => m.appId == app.id && m.workflowRunId == Some(runId)
  }

  function RunCreatedAt(): WorkflowRun -> int {
    (w: WorkflowRun) => w.createdAt
  }

  function MessageCreatedAt(): Message -> int {
    (m: Message) => m.createdAt
  }

  /** `_get_node_executions`: the run's node executions by ascending index. */
  function NodeExecutionsOf(db: TraceDb, runId: Id): (r: seq<NodeExecution>)
    ensures SortedBy(r, (n: NodeExecution) => n.index)
    ensures multiset(r) == multiset(Filter(db.nodes, (n: NodeExecution) => n.workflowRunId == runId))
    ensures forall n :: n in r <==> n in db.nodes && n.workflowRunId == runId
  {
    var rows := Filter(db.nodes, (n: NodeExecution) => n.workflowRunId == runId);
    var r := SortBy(rows, (n: NodeExecution) => n.index);
    assert forall n :: n in r <==> n in rows by {
      forall n ensures n in r <==> n in rows {
        assert n in r <==> n in multiset(r);
      }
    }
    r
  }

  /** `_get_agent_thoughts`: the message's agent thoughts by ascending
      position. */
  function AgentThoughtsOf(db: TraceDb, messageId: Id): (r: seq<AgentThought>)
    ensures SortedBy(r, (t: AgentThought) => t.position)
    ensures forall t :: t in r <==> t in db.thoughts && t.messageId == messageId
    ensures |r| == CountWhere(db.thoughts, (t: AgentThought) => t.messageId == messageId)
  {
    var rows := Filter(db.thoughts, (t: AgentThought) => t.messageId == messageId);
    var r := SortBy(rows, (t: AgentThought) => t.position);
    assert forall t :: t in r <==> t in rows by {
      forall t ensures t in r <==> t in rows {
        assert t in r <==> t in multiset(r);
      }
    }
    r
  }

  /** The `type` field of a found execution. */
  datatype Kind = WorkflowKind | ChatflowKind | ChatKind | AgentKind | CompletionKind

  function KindValue(k: Kind): string {
    match k
    case WorkflowKind => "workflow"
    case ChatflowKind => "chatflow"
    case ChatKind => "chat"
    case AgentKind => "agent"
    case CompletionKind => "completion"
  }

  /** A found execution. A workflow execution has no message; the other
      kinds always have one. */
  datatype Execution = Execution(kind: Kind, message: Option<Message>, workflowRun: Option<WorkflowRun>,
                                 nodes: seq<NodeExecution>, thoughts: seq<AgentThought>)

  /** `_get_workflow_execution`: the latest traced run with its node
      executions. */
  function WorkflowExecution(db: TraceDb, app: App, traceId: string): (r: Option<Execution>)
    ensures r.None? <==> forall w :: w in db.runs ==> !IsTracedRun(app, traceId)(w)
    ensures r.Some? ==> r.value.kind == WorkflowKind && r.value.message.None?
                        && r.value.workflowRun.Some? && r.value.workflowRun.value in db.runs
                        && IsTracedRun(app, traceId)(r.value.workflowRun.value)
                        && r.value.nodes == NodeExecutionsOf(db, r.value.workflowRun.value.id)
    ensures r.Some? ==> forall w :: w in db.runs && IsTracedRun(app, traceId)(w) ==>
                          w.createdAt <= r.value.workflowRun.value.createdAt
  {
    LatestIsNewest(db.runs, IsTracedRun(app, traceId), RunCreatedAt());
    match At(db.runs, Latest(db.runs, IsTracedRun(app, traceId), RunCreatedAt()))
    case None => None
    case Some(run) => Some(Execution(WorkflowKind, None, Some(run), NodeExecutionsOf(db, run.id), []))
  }

  /** The message a chatflow lookup settles on: the latest traced message,
      otherwise the first message linked to the latest traced run. */
  function ChatflowMessage(db: TraceDb, app: App, traceId: string): (r: Option<Message>)
    ensures r.Some? ==> r.value in db.messages && r.value.appId == app.id
    ensures (exists m :: m in db.messages && IsTracedMessage(app, traceId)(m)) ==>
              r.Some? && IsTracedMessage(app, traceId)(r.value)
              && forall m :: m in db.messages && IsTracedMessage(app, traceId)(m) ==> m.createdAt <= r.value.createdAt
  {
    LatestIsNewest(db.messages, IsTracedMessage(app, traceId), MessageCreatedAt());
    match At(db.messages, Latest(db.messages, IsTracedMessage(app, traceId), MessageCreatedAt()))
    case Some(m) => Some(m)
    case None =>
      match At(db.runs, Latest(db.runs, IsTracedRun(app, traceId), RunCreatedAt()))
      case None => None
      case Some(run) => At(db.messages, First(db.messages, IsMessageOfRun(app, run.id)))
  }

  /** The run a message links to, looked up by id alone. */
  function LinkedRun(db: TraceDb, m: Message): (r: Option<WorkflowRun>)
    ensures r.Some? ==> r.value in db.runs && m.workflowRunId == Some(r.value.id)
    ensures m.workflowRunId.None? || m.workflowRunId == Some("") ==> r.None?
  {
    match m.workflowRunId
    case None => None
    case Some(wid) =>
      if wid == "" then None
      else At(db.runs, First(db.runs, (w: WorkflowRun) => w.id == wid))
  }

  /** `_get_chatflow_execution`. */
  function ChatflowExecution(db: TraceDb, app: App, traceId: string): (r: Option<Execution>)
    ensures r.None? <==> ChatflowMessage(db, app, traceId).None?
    ensures r.Some? ==> r.value.kind == ChatflowKind && r.value.thoughts == []
                        && r.value.message == ChatflowMessage(db, app, traceId)
                        && r.value.workflowRun == LinkedRun(db, r.value.message.value)
                        && (r.value.workflowRun.None? ==> r.value.nodes == [])
                        && (r.value.workflowRun.Some? ==>
                              r.value.nodes == NodeExecutionsOf(db, r.value.workflowRun.value.id))
  {
    match ChatflowMessage(db, app, traceId)
    case None => None
    case Some(m) =>
      match LinkedRun(db, m)
      case None => Some(Execution(ChatflowKind, Some(m), None, [], []))
      case Some(run) => Some(Execution(ChatflowKind, Some(m), Some(run), NodeExecutionsOf(db, run.id), []))
  }

  /** `_get_chat_execution` and `_get_completion_execution`: the latest
      traced message; chat kinds add its agent thoughts. */
  function MessageExecution(db: TraceDb, app: App, traceId: string, kind: Kind): (r: Option<Execution>)
    requires kind in {ChatKind, AgentKind, CompletionKind}
    ensures r.None? <==> forall m :: m in db.messages ==> !IsTracedMessage(app, traceId)(m)
    ensures r.Some? ==> r.value.kind == kind && r.value.workflowRun.None? && r.value.nodes == []
                        && r.value.message.Some? && r.value.message.value in db.messages
                        && IsTracedMessage(app, traceId)(r.value.message.value)
    ensures r.Some? ==> forall m :: m in db.messages && IsTracedMessage(app, traceId)(m) ==>
                          m.createdAt <= r.value.message.value.createdAt
    ensures r.Some? && kind == CompletionKind ==> r.value.thoughts == []
    ensures r.Some? && kind != CompletionKind ==>
              r.value.thoughts == AgentThoughtsOf(db, r.value.message.value.id)
  {
    match At(db.messages, Latest(db.messages, IsTracedMessage(app, traceId), MessageCreatedAt()))
    case None => None
    case Some(m) =>
      LatestIsNewest(db.messages, IsTracedMessage(app, traceId), MessageCreatedAt());
      var thoughts := if kind == CompletionKind then [] else AgentThoughtsOf(db, m.id);
      Some(Execution(kind, Some(m), None, [], thoughts))
  }

  /** `get_execution_by_trace_id`: dispatch on the application mode. */
  function GetExecutionByTraceId(db: TraceDb, app: App, traceId: string): (r: Option<Execution>)
    ensures app.mode == OtherMode ==> r.None?
    ensures r.Some? ==> r.value.kind == match app.mode
                                        case Workflow => WorkflowKind
                                        case AdvancedChat => ChatflowKind
                                        case Chat => ChatKind
                                        case AgentChat => AgentKind
                                        case Completion => CompletionKind
                                        case OtherMode => WorkflowKind
    ensures r.Some? && r.value.message.Some? ==> r.value.message.value.appId == app.id
    ensures app.mode == Workflow ==> r == WorkflowExecution(db, app, traceId)
    ensures app.mode == AdvancedChat ==> r == ChatflowExecution(db, app, traceId)
    ensures app.mode == Chat ==> r == MessageExecution(db, app, traceId, ChatKind)
    ensures app.mode == AgentChat ==> r == MessageExecution(db, app, traceId, AgentKind)
    ensures app.mode == Completion ==> r == MessageExecution(db, app, traceId, CompletionKind)
    ensures app.mode == Workflow ==> (r.Some? <==> exists w :: w in db.runs && IsTracedRun(app, traceId)(w))
    ensures app.mode in {Chat, AgentChat, Completion} ==>
              (r.Some? <==> exists m :: m in db.messages && IsTracedMessage(app, traceId)(m))
  {
    match app.mode
    case Workflow => WorkflowExecution(db, app, traceId)
    case AdvancedChat => ChatflowExecution(db, app, traceId)
    case Chat => MessageExecution(db, app, traceId, ChatKind)
    case AgentChat => MessageExecution(db, app, traceId, AgentKind)
    case Completion => MessageExecution(db, app, traceId, CompletionKind)
    case OtherMode => None
  }

  /** Without a traced message, the chatflow lookup falls back to the
      newest traced run: a message it finds is linked to a traced run no
      older than any other, and when one traced run is strictly newer than
      all others and some message of the application links to it, a message
      is found. */
  lemma ChatflowFallsBackToRun(db: TraceDb, app: App, traceId: string)
    requires forall m :: m in db.messages ==> !IsTracedMessage(app, traceId)(m)
    ensures var found := ChatflowMessage(db, app, traceId);
            found.Some? ==>
              exists w :: w in db.runs && IsTracedRun(app, traceId)(w) && found.value.workflowRunId == Some(w.id)
                          && forall v :: v in db.runs && IsTracedRun(app, traceId)(v) ==> v.createdAt <= w.createdAt
    ensures forall w, m :: w in db.runs && IsTracedRun(app, traceId)(w) && m in db.messages
                           && IsMessageOfRun(app, w.id)(m)
                           && (forall v :: v in db.runs && IsTracedRun(app, traceId)(v) && v != w ==>
                                 v.createdAt < w.createdAt)
                           ==> ChatflowMessage(db, app, traceId).Some?
  {
    var p := IsTracedRun(app, traceId);
    var i := Latest(db.runs, p, RunCreatedAt());
    LatestIsNewest(db.runs, p, RunCreatedAt());
    assert Latest(db.messages, IsTracedMessage(app, traceId), MessageCreatedAt()).None?;
    var found := ChatflowMessage(db, app, traceId);
    if found.Some? {
      assert db.runs[i.value] in db.runs;
    }
    forall w, m | w in db.runs && p(w) && m in db.messages && IsMessageOfRun(app, w.id)(m)
                  && (forall v :: v in db.runs && p(v) && v != w ==> v.createdAt < w.createdAt)
      ensures found.Some?
    {
      assert i.Some?;
      var latest := db.runs[i.value];
      assert latest in db.runs;
      assert latest == w;
      var k :| 0 <= k < |db.messages| && db.messages[k] == m;
      assert IsMessageOfRun(app, latest.id)(db.messages[k]);
    }
  }

  /** The row `Latest` picks, stated over membership: no qualifying row is
      newer. */
  lemma LatestIsNewest<T>(s: seq<T>, p: T -> bool, key: T -> int)
    ensures Latest(s, p, key).Some? ==>
              forall x :: x in s && p(x) ==> key(x) <= key(s[Latest(s, p, key).value])
    ensures Latest(s, p, key).None? <==> forall x :: x in s ==> !p(x)
  {
    var r := Latest(s, p, key);
    forall x | x in s && p(x) ensures r.Some? && key(x) <= key(s[r.value]) {
      var k :| 0 <= k < |s| && s[k] == x;
    }
  }

  /** The lookup is scoped to the application: messages and runs of other
      applications never change the outcome. */
  lemma OtherAppsAreInvisible(db: TraceDb, app: App, traceId: string, m: Message, kind: Kind)
    requires m.appId != app.id
    requires kind in {ChatKind, AgentKind, CompletionKind}
    ensures MessageExecution(db.(messages := db.messages + [m]), app, traceId, kind)
            == MessageExecution(db, app, traceId, kind)
    ensures ChatflowMessage(db.(messages := db.messages + [m]), app, traceId)
            == ChatflowMessage(db, app, traceId)
  {
    var db2 := db.(messages := db.messages + [m]);
    LatestIgnoresLast(db.messages, m, IsTracedMessage(app, traceId), MessageCreatedAt());
    var i := Latest(db.messages, IsTracedMessage(app, traceId), MessageCreatedAt());
    if i.Some? {
      assert db2.messages[i.value] == db.messages[i.value];
    } else {
      match At(db.runs, Latest(db.runs, IsTracedRun(app, traceId), RunCreatedAt()))
      case None =>
      case Some(run) =>
        FirstIgnoresLast(db.messages, m, IsMessageOfRun(app, run.id));
        var f := First(db.messages, IsMessageOfRun(app, run.id));
        if f.Some? {
          assert db2.messages[f.value] == db.messages[f.value];
        }
    }
  }

  /** A row that does not qualify, added at the end, never changes which row
      `Latest` picks. */
  lemma {:induction false} LatestIgnoresLast<T>(s: seq<T>, x: T, p: T -> bool, key: T -> int)
    requires !p(x)
    ensures Latest(s + [x], p, key) == Latest(s, p, key)
  {
    if |s| == 0 {
      assert (s + [x])[1..] == [];
    } else {
      assert (s + [x])[1..] == s[1..] + [x];
      LatestIgnoresLast(s[1..], x, p, key);
    }
  }

  /** A row that does not qualify, added at the end, never changes which row
      `First` picks. */
  lemma {:induction false} FirstIgnoresLast<T>(s: seq<T>, x: T, p: T -> bool)
    requires !p(x)
    ensures First(s + [x], p) == First(s, p)
  {
    if |s| == 0 {
      assert (s + [x])[1..] == [];
    } else {
      assert (s + [x])[1..] == s[1..] + [x];
      FirstIgnoresLast(s[1..], x, p);
    }
  }

}
