/**
 * `MessageService` of `message.service.ts` over an in-memory stand-in for its database: a map
 * from conversation id to conversation (each with its messages), the ids in creation order, and
 * a clock whose ticks stand for the `createdAt` timestamps.
 */
module Service {
  import opened Wrappers
  import opened Classifier
  import opened Conversations

  /** The length of the longest id in `ids`. */
  function MaxLength(ids: seq<string>): (n: nat)
    ensures forall i | 0 <= i < |ids| :: |ids[i]| <= n
  {
    if ids == [] then 0
    else
      var rest := MaxLength(ids[1..]);
      if |ids[0]| > rest then |ids[0]| else rest
  }

  /** Stands in for the generated cuid: a non-empty id that no conversation in `used` has. */
  function FreshId(used: seq<string>): (id: string)
    ensures id != "" && id !in used
  {
    seq(MaxLength(used) + 1, _ => 'c')
  }

  /**
   * The conversation `createMessage` loads: none when the id is absent or empty (falsy), and
   * otherwise whatever `findUnique` finds, which is none for an unknown id.
   */
  function FindLoaded(conversationId: Option<string>, conversations: map<string, Conversation>)
    : (r: Option<Conversation>)
    ensures r.Some? <==>
      conversationId.Some? && conversationId.value != "" && conversationId.value in conversations
    ensures r.Some? ==> r.value == conversations[conversationId.value]
  {
    match conversationId
    case None => None
    case Some(id) => if id != "" && id in conversations then Some(conversations[id]) else None
  }

  /** A stored conversation: stamped before `clock`, its messages its own, chronological and stamped before `clock`. */
  ghost predicate WellStamped(c: Conversation, clock: nat)
  {
    && c.createdAt < clock
    && Chronological(c.messages)
    && forall i | 0 <= i < |c.messages| ::
         c.messages[i].conversationId == c.id && c.messages[i].createdAt < clock
  }

  /** The conversation stored under `id` carries that id and is well stamped. */
  ghost predicate Stored(conversations: map<string, Conversation>, id: string, clock: nat)
  {
    id in conversations && id != "" && conversations[id].id == id &&
    WellStamped(conversations[id], clock)
  }

  class MessageService {
    var conversations: map<string, Conversation>
    var order: seq<string>  // conversation ids, oldest first
    var clock: nat          // the next timestamp

    ghost predicate Valid()
      reads this
    {
      && (forall id {:trigger Stored(conversations, id, clock)} | id in conversations ::
            Stored(conversations, id, clock))
      && (forall i | 0 <= i < |order| :: order[i] in conversations)
      && |order| == |conversations|
      && (forall i, j | 0 <= i < j < |order| ::
            conversations[order[i]].createdAt < conversations[order[j]].createdAt)
    }

    constructor ()
      ensures Valid()
      ensures conversations == map[] && order == [] && clock == 0
    {
      conversations := map[];
      order := [];
      clock := 0;
    }

    /** `prisma.conversation.create` with status OPEN: a fresh id, no messages. */
    method CreateConversation() returns (c: Conversation)
      requires Valid()
      modifies this
      ensures Valid()
      ensures c.id != "" && c.id !in old(conversations)
      ensures c == Conversation(c.id, OPEN, None, None, old(clock), [])
      ensures conversations == old(conversations)[c.id := c]
      ensures order == old(order) + [c.id] && clock == old(clock) + 1
    {
      c := Conversation(FreshId(order), OPEN, None, None, clock, []);
      if c.id in conversations {
        var k := Listed(c.id);
      }
      forall i | 0 <= i < |order|
        ensures conversations[order[i]].createdAt < clock
      {
        assert Stored(conversations, order[i], clock);
      }
      conversations := conversations[c.id := c];
      order := order + [c.id];
      clock := clock + 1;
      forall id | id in conversations
        ensures Stored(conversations, id, clock)
      {
        if id != c.id {
          assert Stored(old(conversations), id, old(clock));
        }
      }
    }

    /** Every stored id stands somewhere in `order`. */
    lemma Listed(id: string) returns (k: nat)
      requires Valid() && id in conversations
      ensures k < |order| && order[k] == id
    {
      k := Position(order, conversations.Keys, id);
    }

    /** `prisma.message.create`: the message is appended to its conversation, stamped now. */
    method InsertMessage(conversationId: string, role: Role, content: string)
      requires Valid() && conversationId in conversations
      modifies this
      ensures Valid()
      ensures var c := old(conversations)[conversationId];
        conversations == old(conversations)[conversationId :=
          c.(messages := c.messages + [Message(conversationId, role, content, old(clock))])]
      ensures order == old(order) && clock == old(clock) + 1
    {
      var c := conversations[conversationId];
      assert Stored(conversations, conversationId, clock);
      conversations := conversations[conversationId :=
        c.(messages := c.messages + [Message(conversationId, role, content, clock)])];
      clock := clock + 1;
      forall id | id in conversations
        ensures Stored(conversations, id, clock)
      {
        assert Stored(old(conversations), id, old(clock));
      }
    }

    /**
     * `prisma.conversation.update` to TRANSFERRED with a department and a summary. The
     * department column is assumed to hold only the three departments (the persistence schema
     * is not modelled), so any other string is refused and nothing is written.
     */
    method UpdateTransferred(conversationId: string, department: string, summary: Option<string>)
      returns (accepted: bool)
      requires Valid() && conversationId in conversations
      modifies this
      ensures Valid()
      ensures accepted <==> DepartmentValue(department).Some?
      ensures var c := old(conversations)[conversationId];
        conversations == if accepted
          then old(conversations)[conversationId :=
                 c.(status := TRANSFERRED, department := DepartmentValue(department), summary := summary)]
          else old(conversations)
      ensures order == old(order) && clock == old(clock)
    {
      var value := DepartmentValue(department);
      accepted := value.Some?;
      if accepted {
        var c := conversations[conversationId];
        conversations := conversations[conversationId :=
          c.(status := TRANSFERRED, department := value, summary := summary)];
        forall id | id in conversations
          ensures Stored(conversations, id, clock)
        {
          assert Stored(old(conversations), id, clock);
        }
      }
    }

    /** `getConversation`: the stored conversation with its messages in ascending order, or none. */
    function GetConversation(conversationId: string): (r: Option<Conversation>)
      reads this
      requires Valid()
      ensures r.Some? <==> conversationId in conversations
      ensures r.Some? ==>
        r.value == conversations[conversationId] && r.value.id == conversationId &&
        Chronological(r.value.messages)
    {
      if conversationId in conversations then
        assert Stored(conversations, conversationId, clock);
        Some(conversations[conversationId])
      else None
    }

    /** `getAllConversations`: every stored conversation once, newest first; no filter is applied. */
    function GetAllConversations(): (r: seq<Conversation>)
      reads this
      requires Valid()
      ensures forall i | 0 <= i < |r| :: r[i].id in conversations && conversations[r[i].id] == r[i]
      ensures forall id | id in conversations :: conversations[id] in r
      ensures forall i, j | 0 <= i < j < |r| :: r[i].createdAt > r[j].createdAt
    {
      var r := NewestFirst(conversations, order);
      assert forall i | 0 <= i < |r| :: r[i].id in conversations && conversations[r[i].id] == r[i] by {
        forall i | 0 <= i < |r|
          ensures r[i].id in conversations && conversations[r[i].id] == r[i]
        {
          assert Stored(conversations, order[|order| - 1 - i], clock);
        }
      }
      assert forall id | id in conversations :: conversations[id] in r by {
        forall id | id in conversations
          ensures conversations[id] in r
        {
          var k := Listed(id);
          assert r[|order| - 1 - k] == conversations[id];
        }
      }
      r
    }

    /**
     * `createMessage`. Resolves the conversation (an absent, empty or unknown id creates a new
     * one), refuses a transferred one before writing anything, inserts the user message, asks
     * the classifier with the history as loaded, inserts its reply, and transfers when the
     * decision asks for it. `loaded` is the conversation as resolved, before any insert.
     */
    method CreateMessage(conversationId: Option<string>, content: string,
                         complete: seq<ChatMessage> -> Outcome,
                         parse: string -> Option<AnalysisResult>)
      returns (r: Result<Conversation, Error>, ghost loaded: Conversation)
      requires Valid()
      modifies this
      ensures Valid()
      ensures var found := FindLoaded(conversationId, old(conversations));
        if found.Some? then loaded == found.value && order == old(order)
        else loaded.id !in old(conversations) && loaded.id != "" &&
             loaded == Conversation(loaded.id, OPEN, None, None, old(clock), []) &&
             order == old(order) + [loaded.id]
      ensures var t := if FindLoaded(conversationId, old(conversations)).Some? then old(clock) else old(clock) + 1;
        var analysis := AnalyzeMessage(ToHistory(loaded.messages), content, complete, parse);
        var e := Triaged(loaded, content, analysis, t);
        conversations == old(conversations)[loaded.id := e.after] && r == e.result &&
        clock == if loaded.status == TRANSFERRED then t else t + 2
      ensures r.Success? ==> r.value == conversations[loaded.id] && Chronological(r.value.messages)
      ensures forall id | id in old(conversations) && id != loaded.id ::
        id in conversations && conversations[id] == old(conversations)[id]
      ensures (forall id | id in old(conversations) :: DepartmentOnlyWhenTransferred(old(conversations)[id])) ==>
              (forall id | id in conversations :: DepartmentOnlyWhenTransferred(conversations[id]))
      ensures (forall id | id in old(conversations) :: TransferredHasDepartment(old(conversations)[id])) ==>
              (forall id | id in conversations :: TransferredHasDepartment(conversations[id]))
    {
      var conversation, created := Resolve(conversationId);
      loaded := conversation;
      ghost var t := clock;

      ghost var analysis := AnalyzeMessage(ToHistory(loaded.messages), content, complete, parse);
      ghost var e := Triaged(loaded, content, analysis, t);
      if conversation.status == TRANSFERRED {
        r := Failure(AlreadyTransferred);
        TransferredIsRefused(loaded, content, analysis, t);
        UpdateSame(old(conversations), loaded.id);
        return;
      }
      r := Converse(conversation, content, complete, parse);
      if created {
        UpdateTwice(old(conversations), loaded.id, loaded, e.after);
      }
      if DepartmentOnlyWhenTransferred(loaded) {
        DepartmentInvariantKept(loaded, content, analysis, t);
      }
      if TransferredHasDepartment(loaded) {
        TransferredDepartmentKept(loaded, content, analysis, t);
      }
    }

    /**
     * Lines 42-62 of `createMessage`: the conversation found under a non-empty id, or else a
     * new one; in both cases it is stored under its id afterwards.
     */
    method Resolve(conversationId: Option<string>) returns (conversation: Conversation, ghost created: bool)
      requires Valid()
      modifies this
      ensures Valid()
      ensures created <==> FindLoaded(conversationId, old(conversations)).None?
      ensures !created ==>
        && conversation == FindLoaded(conversationId, old(conversations)).value
        && conversations == old(conversations) && order == old(order) && clock == old(clock)
      ensures created ==>
        && conversation.id !in old(conversations) && conversation.id != ""
        && conversation == Conversation(conversation.id, OPEN, None, None, old(clock), [])
        && conversations == old(conversations)[conversation.id := conversation]
        && order == old(order) + [conversation.id] && clock == old(clock) + 1
      ensures conversation.id in conversations && conversations[conversation.id] == conversation
    {
      var found := FindLoaded(conversationId, conversations);
      created := found.None?;
      if found.Some? {
        assert Stored(conversations, conversationId.value, clock);
        conversation := found.value;
      } else {
        conversation := CreateConversation();
      }
    }

    /**
     * The part of `createMessage` past the guard (lines 71-124): the user message, the
     * classifier call with the history as loaded, the reply, the transfer when asked for, and
     * the reload.
     */
    method Converse(conversation: Conversation, content: string,
                    complete: seq<ChatMessage> -> Outcome,
                    parse: string -> Option<AnalysisResult>)
      returns (r: Result<Conversation, Error>)
      requires Valid()
      requires conversation.id in conversations && conversations[conversation.id] == conversation
      requires conversation.status != TRANSFERRED
      modifies this
      ensures Valid()
      ensures var analysis := AnalyzeMessage(ToHistory(conversation.messages), content, complete, parse);
        var e := Triaged(conversation, content, analysis, old(clock));
        conversations == old(conversations)[conversation.id := e.after] && r == e.result
      ensures r.Success? ==> Chronological(r.value.messages)
      ensures order == old(order) && clock == old(clock) + 2
    {
      ghost var t := clock;
      InsertMessage(conversation.id, USER, content);
      var history := ToHistory(conversation.messages);
      var analysis := AnalyzeMessage(history, content, complete, parse);
      r := Conclude(conversation, content, analysis, t);
    }

    /** Lines 89-124 of `createMessage`, once the decision is known. */
    method Conclude(conversation: Conversation, content: string, analysis: AnalysisResult, ghost t: nat)
      returns (r: Result<Conversation, Error>)
      requires Valid()
      requires conversation.id in conversations
      requires conversations[conversation.id] ==
        conversation.(messages := conversation.messages + [Message(conversation.id, USER, content, t)])
      requires conversation.status != TRANSFERRED && clock == t + 1
      modifies this
      ensures Valid()
      ensures var e := Triaged(conversation, content, analysis, t);
        conversations == old(conversations)[conversation.id := e.after] && r == e.result
      ensures r.Success? ==> Chronological(r.value.messages)
      ensures order == old(order) && clock == old(clock) + 1
    {
      InsertMessage(conversation.id, ASSISTANT, analysis.message);
      ghost var e := Triaged(conversation, content, analysis, t);
      ghost var talked := conversation.(messages := conversation.messages +
        [Message(conversation.id, USER, content, t), Message(conversation.id, ASSISTANT, analysis.message, t + 1)]);
      assert conversation.messages + [Message(conversation.id, USER, content, t)]
                                   + [Message(conversation.id, ASSISTANT, analysis.message, t + 1)]
          == talked.messages;
      assert conversations == old(conversations)[conversation.id := talked];
      if TransferRequested(analysis) {
        var accepted := UpdateTransferred(conversation.id, analysis.department.value,
                                          StoredSummary(analysis.summary));
        if !accepted {
          r := Failure(DepartmentRejected(analysis.department.value));
          assert e.after == talked;
          return;
        }
      }
      var updated := GetConversation(conversation.id);
      r := Success(updated.value);
    }
  }

  /** Distinct entries of a sequence make up a set of the same size. */
  lemma {:induction false} DistinctCard(ids: seq<string>)
    requires forall i, j | 0 <= i < j < |ids| :: ids[i] != ids[j]
    ensures |set i | 0 <= i < |ids| :: ids[i]| == |ids|
  {
    if ids != [] {
      var last := ids[|ids| - 1];
      var front := ids[..|ids| - 1];
      DistinctCard(front);
      assert (set i | 0 <= i < |ids| :: ids[i]) == (set i | 0 <= i < |front| :: front[i]) + {last};
    }
  }

  /**
   * Every id of `ids` stands somewhere in `order` when `order` is as long as `ids`, has no
   * repeated entry and holds only ids of `ids`.
   */
  lemma Position(order: seq<string>, ids: set<string>, id: string) returns (k: nat)
    requires |order| == |ids| && id in ids
    requires forall i | 0 <= i < |order| :: order[i] in ids
    requires forall i, j | 0 <= i < j < |order| :: order[i] != order[j]
    ensures k < |order| && order[k] == id
  {
    var listed := set i | 0 <= i < |order| :: order[i];
    DistinctCard(order);
    assert listed <= ids;
    var rest := ids - listed;
    assert ids == listed + rest && listed !! rest;
    assert |rest| == 0;
    assert id in listed;
    k :| 0 <= k < |order| && order[k] == id;
  }

  lemma UpdateSame<K, V>(m: map<K, V>, k: K)
    requires k in m
    ensures m[k := m[k]] == m
  {
  }

  lemma UpdateTwice<K, V>(m: map<K, V>, k: K, first: V, second: V)
    ensures m[k := first][k := second] == m[k := second]
  {
  }

  /** The conversations `ids` names, last id first. */
  function NewestFirst(conversations: map<string, Conversation>, ids: seq<string>): (r: seq<Conversation>)
    requires forall i | 0 <= i < |ids| :: ids[i] in conversations
    ensures |r| == |ids|
    ensures forall i | 0 <= i < |r| :: r[i] == conversations[ids[|ids| - 1 - i]]
  {
    if ids == [] then []
    else [conversations[ids[|ids| - 1]]] + NewestFirst(conversations, ids[..|ids| - 1])
  }
}
