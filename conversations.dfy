/**
 * The conversation records of `message.service.ts` and what one `createMessage` call does to
 * the conversation it resolves, stated as pure functions over values. The store that holds the
 * records and the call itself, step by step, are in module Service.
 */
module Conversations {
  import opened Wrappers
  import opened Classifier

  /** Stored status values; the triage flow writes OPEN on creation and TRANSFERRED on transfer. */
  datatype Status = OPEN | TRANSFERRED | CLOSED

  /** The human queues a conversation can be handed to. */
  datatype Department = SALES | SUPPORT | FINANCE

  /** Stored message roles; the triage flow writes only USER and ASSISTANT. */
  datatype Role = USER | ASSISTANT | SYSTEM

  /** A stored message; `createdAt` is a tick of the store's clock. */
  datatype Message = Message(conversationId: string, role: Role, content: string, createdAt: nat)

  /** A stored conversation with its messages, as `findUnique` returns it. */
  datatype Conversation = Conversation(
    id: string,
    status: Status,
    department: Option<Department>,
    summary: Option<string>,
    createdAt: nat,
    messages: seq<Message>)

  /** The errors `createMessage` throws. */
  datatype Error =
    | AlreadyTransferred               // the guard on a transferred conversation
    | DepartmentRejected(value: string) // the store, assumed to enumerate the departments, refuses another string

  function DepartmentName(d: Department): string
  {
    match d
    case SALES => "SALES"
    case SUPPORT => "SUPPORT"
    case FINANCE => "FINANCE"
  }

  /** The department a string names, as the store's enumerated column reads it. */
  function DepartmentValue(s: string): (r: Option<Department>)
    ensures r.Some? ==> DepartmentName(r.value) == s
    ensures r.None? ==> forall d: Department :: DepartmentName(d) != s
  {
    if s == "SALES" then Some(SALES)
    else if s == "SUPPORT" then Some(SUPPORT)
    else if s == "FINANCE" then Some(FINANCE)
    else None
  }

  lemma DepartmentRoundTrip(d: Department)
    ensures DepartmentValue(DepartmentName(d)) == Some(d)
  {
  }

  /** Messages in ascending `createdAt` order, as every query asks for them. */
  predicate Chronological(messages: seq<Message>)
  {
    forall i, j | 0 <= i < j < |messages| :: messages[i].createdAt < messages[j].createdAt
  }

  /**
   * The history handed to the classifier: each stored message, in order, with USER as 'user'
   * and every other role as 'assistant', content unchanged.
   */
  function ToHistory(messages: seq<Message>): (h: seq<HistoryEntry>)
    ensures |h| == |messages|
    ensures forall i | 0 <= i < |messages| ::
      h[i].content == messages[i].content && (h[i].role == User <==> messages[i].role == USER)
  {
    if messages == [] then []
    else
      var role: HistoryRole := if messages[0].role == USER then User else Assistant;
      [HistoryEntry(role, messages[0].content)] + ToHistory(messages[1..])
  }

  /** The condition of the transfer: `shouldTransfer` true and `department` a non-empty string. */
  predicate TransferRequested(a: AnalysisResult): (b: bool)
    ensures b <==> a.shouldTransfer && a.department != None && a.department != Some("")
  {
    a.shouldTransfer && a.department.Some? && a.department.value != ""
  }

  /** `summary || null`: an absent or empty summary is stored as null. */
  function StoredSummary(summary: Option<string>): (r: Option<string>)
    ensures r == None <==> summary == None || summary == Some("")
    ensures r != None ==> r == summary
  {
    if summary == Some("") then None else summary
  }

  /** A department is recorded only on a transferred conversation. */
  predicate DepartmentOnlyWhenTransferred(c: Conversation)
  {
    c.department.Some? ==> c.status == TRANSFERRED
  }

  /** A transferred conversation always has a department recorded. */
  predicate TransferredHasDepartment(c: Conversation)
  {
    c.status == TRANSFERRED ==> c.department.Some?
  }

  /** The state a call leaves the resolved conversation in, and what the call returns. */
  datatype Effect = Effect(after: Conversation, result: Result<Conversation, Error>)

  /**
   * One `createMessage` call on the conversation it resolved (`loaded`, as read before any
   * insert), given the classifier's decision `analysis` and the clock tick `t` the user
   * message is stamped with.
   */
  function Triaged(loaded: Conversation, content: string, analysis: AnalysisResult, t: nat): (e: Effect)
    ensures e.after.id == loaded.id && e.after.createdAt == loaded.createdAt
    ensures e.result.Success? ==> e.result.value == e.after
  {
    if loaded.status == TRANSFERRED then Effect(loaded, Failure(AlreadyTransferred))
    else
      var talked := loaded.(messages := loaded.messages +
        [Message(loaded.id, USER, content, t), Message(loaded.id, ASSISTANT, analysis.message, t + 1)]);
      if !TransferRequested(analysis) then Effect(talked, Success(talked))
      else match DepartmentValue(analysis.department.value)
        case None => Effect(talked, Failure(DepartmentRejected(analysis.department.value)))
        case Some(d) =>
          var moved := talked.(status := TRANSFERRED, department := Some(d),
                               summary := StoredSummary(analysis.summary));
          Effect(moved, Success(moved))
  }

  /** A transferred conversation is refused before anything is written. */
  lemma TransferredIsRefused(loaded: Conversation, content: string, analysis: AnalysisResult, t: nat)
    requires loaded.status == TRANSFERRED
    ensures Triaged(loaded, content, analysis, t) == Effect(loaded, Failure(AlreadyTransferred))
  {
  }

  /**
   * Any call past the guard appends exactly two messages and keeps the earlier ones: first the
   * user's content as USER, then the decision's message as ASSISTANT, both later than t - 1.
   */
  lemma ExchangeAppendsTwo(loaded: Conversation, content: string, analysis: AnalysisResult, t: nat)
    requires loaded.status != TRANSFERRED
    ensures var m := Triaged(loaded, content, analysis, t).after.messages;
      var n := |loaded.messages|;
      |m| == n + 2 && m[..n] == loaded.messages &&
      m[n].role == USER && m[n].content == content && m[n].createdAt == t &&
      m[n + 1].role == ASSISTANT && m[n + 1].content == analysis.message && m[n + 1].createdAt == t + 1 &&
      m[n].conversationId == m[n + 1].conversationId == loaded.id
  {
  }

  /**
   * Past the guard, the conversation becomes TRANSFERRED, with the decision's department and
   * summary, exactly when the transfer is requested and the store accepts the department;
   * otherwise status, department and summary stay as they were.
   */
  lemma TransferExactlyWhenRequested(loaded: Conversation, content: string, analysis: AnalysisResult, t: nat)
    requires loaded.status != TRANSFERRED
    ensures var after := Triaged(loaded, content, analysis, t).after;
      var moves := TransferRequested(analysis) && DepartmentValue(analysis.department.value).Some?;
      (after.status == TRANSFERRED <==> moves) &&
      (moves ==> after.department == DepartmentValue(analysis.department.value) &&
                 after.summary == StoredSummary(analysis.summary)) &&
      (!moves ==> after.status == loaded.status && after.department == loaded.department &&
                  after.summary == loaded.summary)
  {
  }

  /** The call fails exactly on a transferred conversation or on a department the store refuses. */
  lemma FailsOnlyOnGuardOrRejectedDepartment(loaded: Conversation, content: string,
                                             analysis: AnalysisResult, t: nat)
    ensures var e := Triaged(loaded, content, analysis, t);
      e.result.Failure? <==>
        (loaded.status == TRANSFERRED ||
         (TransferRequested(analysis) && DepartmentValue(analysis.department.value).None?))
    ensures var e := Triaged(loaded, content, analysis, t);
      e.result.Success? ==> |e.after.messages| == |loaded.messages| + 2
  {
  }

  /** A department is only ever written together with TRANSFERRED. */
  lemma DepartmentInvariantKept(loaded: Conversation, content: string, analysis: AnalysisResult, t: nat)
    requires DepartmentOnlyWhenTransferred(loaded)
    ensures DepartmentOnlyWhenTransferred(Triaged(loaded, content, analysis, t).after)
  {
  }

  /** TRANSFERRED is only ever written together with a department. */
  lemma TransferredDepartmentKept(loaded: Conversation, content: string, analysis: AnalysisResult, t: nat)
    requires TransferredHasDepartment(loaded)
    ensures TransferredHasDepartment(Triaged(loaded, content, analysis, t).after)
  {
  }

  /** The classifier's fallback decision never moves a conversation. */
  lemma FallbackNeverTransfers(loaded: Conversation, content: string, t: nat)
    ensures !TransferRequested(Fallback())
    ensures var after := Triaged(loaded, content, Fallback(), t).after;
      after.status == loaded.status && after.department == loaded.department &&
      after.summary == loaded.summary
  {
  }

  /**
   * The classifier input for a conversation: the system prompt, then each stored message with
   * USER as 'user' and any other role as 'assistant', then the new content as 'user'.
   */
  lemma ClassifierSeesConversation(c: Conversation, content: string)
    ensures var sent := BuildMessages(ToHistory(c.messages), content);
      |sent| == |c.messages| + 2 &&
      sent[0].role == System && sent[|sent| - 1] == ChatMessage(User, content) &&
      forall i | 0 <= i < |c.messages| ::
        sent[i + 1].content == c.messages[i].content &&
        sent[i + 1].role == (if c.messages[i].role == USER then User else Assistant)
  {
  }

  /** One request of a series on the same conversation: the user's content and the decision it got. */
  datatype Turn = Turn(content: string, analysis: AnalysisResult)

  /** The conversation after a series of calls, the k-th one stamped from t + 2k. */
  function Run(c: Conversation, turns: seq<Turn>, t: nat): (r: Conversation)
    ensures r.id == c.id && r.createdAt == c.createdAt
    decreases |turns|
  {
    if turns == [] then c
    else Run(Triaged(c, turns[0].content, turns[0].analysis, t).after, turns[1..], t + 2)
  }

  /** Once TRANSFERRED, no later call changes the conversation. */
  lemma {:induction false} TransferredIsFinal(c: Conversation, turns: seq<Turn>, t: nat)
    requires c.status == TRANSFERRED
    ensures Run(c, turns, t) == c
    decreases |turns|
  {
    if turns != [] {
      TransferredIsFinal(c, turns[1..], t + 2);
    }
  }

  /** Over any series of calls a department is only ever found on a transferred conversation. */
  lemma {:induction false} RunKeepsDepartmentInvariant(c: Conversation, turns: seq<Turn>, t: nat)
    requires DepartmentOnlyWhenTransferred(c)
    ensures DepartmentOnlyWhenTransferred(Run(c, turns, t))
    decreases |turns|
  {
    if turns != [] {
      var next := Triaged(c, turns[0].content, turns[0].analysis, t).after;
      DepartmentInvariantKept(c, turns[0].content, turns[0].analysis, t);
      RunKeepsDepartmentInvariant(next, turns[1..], t + 2);
    }
  }

  /** Over any series of calls a transferred conversation always has its department. */
  lemma {:induction false} RunKeepsTransferredDepartment(c: Conversation, turns: seq<Turn>, t: nat)
    requires TransferredHasDepartment(c)
    ensures TransferredHasDepartment(Run(c, turns, t))
    decreases |turns|
  {
    if turns != [] {
      var next := Triaged(c, turns[0].content, turns[0].analysis, t).after;
      TransferredDepartmentKept(c, turns[0].content, turns[0].analysis, t);
      RunKeepsTransferredDepartment(next, turns[1..], t + 2);
    }
  }

  /**
   * Over any series of calls the earlier messages stay, the count grows by an even number, and
   * the new messages alternate USER, ASSISTANT, USER, ...
   */
  lemma {:induction false} RunAppendsPairs(c: Conversation, turns: seq<Turn>, t: nat)
    ensures var r := Run(c, turns, t);
      |c.messages| <= |r.messages| && (|r.messages| - |c.messages|) % 2 == 0 &&
      r.messages[..|c.messages|] == c.messages &&
      forall k | |c.messages| <= k < |r.messages| ::
        r.messages[k].role == (if (k - |c.messages|) % 2 == 0 then USER else ASSISTANT)
    decreases |turns|
  {
    if turns != [] {
      var next := Triaged(c, turns[0].content, turns[0].analysis, t).after;
      RunAppendsPairs(next, turns[1..], t + 2);
      if c.status != TRANSFERRED {
        ExchangeAppendsTwo(c, turns[0].content, turns[0].analysis, t);
        var r := Run(c, turns, t);
        var n := |c.messages|;
        assert r == Run(next, turns[1..], t + 2);
        assert r.messages[..n] == next.messages[..n+2][..n];
        forall k | n <= k < |r.messages|
          ensures r.messages[k].role == (if (k - n) % 2 == 0 then USER else ASSISTANT)
        {
          if k >= n + 2 {
            assert (k - n) % 2 == (k - (n + 2)) % 2;
          } else {
            assert r.messages[k] == r.messages[..n + 2][k] == next.messages[k];
          }
        }
      }
    }
  }
}
