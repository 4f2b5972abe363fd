# Conversation triage core, modelled in Dafny

This project models the core of a customer-service triage API. A client sends a message.
A language-model classifier decides whether the conversation can go on automatically or must
be handed to a human department (SALES, SUPPORT or FINANCE). A stored conversation record
tracks the exchange until it is transferred.

The model has two parts.

- **The classifier gateway** (`AIService.analyzeMessage`, module `Classifier`, `classifier.dfy`).
  It is a pure, total function. It builds the message list: the system prompt, then the
  history, then the new user message. It consults the completion service and the JSON parser,
  which are both parameters of the model: `complete: seq<ChatMessage> -> Outcome` and
  `parse: string -> Option<AnalysisResult>`. It returns the parsed decision, or a fixed fallback
  decision on every failure path.
- **The triage state machine** (`MessageService`, modules `Conversations` and `Service`).
  - `Conversations` (`conversations.dfy`) states what one `createMessage` call does to the
    conversation it resolves. `Triaged` is that specification. `Run` applies it to a series of
    calls. The lemmas state the guard, the two appended messages, the conditional transfer and
    the department invariant.
  - `Service` (`message_service.dfy`) holds the store in a class `MessageService`. The store is
    a map from conversation id to conversation, each conversation carrying its messages. The
    class also keeps the ids in creation order and a clock whose ticks stand for the `createdAt`
    timestamps. `CreateMessage` changes the store step by step, as the source does: create the
    conversation if needed, check the guard, insert the user message, classify, insert the
    reply, update on transfer, reload. It is proved against `Triaged`.
    `GetConversation` and `GetAllConversations` are read-only queries.

Stored enumerations are written in capitals as the database holds them (`OPEN`, `USER`,
`SALES`). The model API's roles are `System`, `User` and `Assistant`.

Where the design description and the code differ, the model follows the code:

- An unknown or empty `conversationId` does not raise a not-found error. A new conversation is
  created instead (`message.service.ts:42-62`; an empty string is falsy at line 42).
- The classifier checks only that `message` is present. `department` is not checked against
  the three departments, and `shouldTransfer` is not checked either (`ai.service.ts:105-112`).
- The transfer fires when `shouldTransfer` is true and `department` is a non-empty string
  (`message.service.ts:99`). The model assumes that the database column for the department
  holds only the three departments. The persistence schema is not part of this model, so this
  is an assumption (see `Service.MessageService.UpdateTransferred` under "## Left out"). Under
  it, any other string is refused by the store, and the call fails with `DepartmentRejected`.
  Both messages have already been inserted by then, because the writes are not in one
  transaction.
- `getAllConversations` takes no filter. The route passes `{status, department}`, and the
  service ignores it (`message.service.ts:142`).
- "A department is recorded exactly when the conversation is TRANSFERRED" is maintained in
  both directions. The status becomes TRANSFERRED only in the update that writes the
  department (`message.service.ts:100-106`), and a new conversation is OPEN with no department.
- The stored status also admits CLOSED, as the route's filter (`message.routes.ts:125`) and the
  client's types (`web/src/types/message.ts:11`) list it. The service's own type lists only OPEN
  and TRANSFERRED (`message.service.ts:4`). Nothing in the core writes CLOSED, and the guard
  tests only for TRANSFERRED, so a CLOSED conversation would still accept messages.

## Model

| member | source | states |
|---|---|---|
| `Classifier.Fallback` | api/src/services/ai.service.ts:116-122 | the fallback decision: no transfer, no department, no summary, and the fixed apology text, which is non-empty |
| `Classifier.ToChat` | api/src/services/ai.service.ts:82-85 | each history entry's role and content are copied in order, same length, and no entry becomes a system message |
| `Classifier.BuildMessages` | api/src/services/ai.service.ts:80-87 | the list sent to the model: the system prompt first, then the copied history, then `{user, userMessage}` last; its length is history + 2 and no other entry is a system message |
| `Classifier.FirstContent` | api/src/services/ai.service.ts:98 | `choices[0]?.message?.content`: the first choice's content, none when there is no choice or it has no content |
| `Classifier.Decide` | api/src/services/ai.service.ts:98-123 | whatever the completion call produced, the result is a decision with a non-empty message |
| `Classifier.AnalyzeMessage` | api/src/services/ai.service.ts:74-124 | total: it returns a decision for every history, message, completion answer and parse, and that decision always carries a non-empty message |
| `Classifier.TransportErrorFallsBack` | api/src/services/ai.service.ts:90-96 | a failed completion call yields the fallback |
| `Classifier.EmptyContentFallsBack` | api/src/services/ai.service.ts:98-102 | no choice, or a missing or empty content, yields the fallback |
| `Classifier.UnparsableFallsBack` | api/src/services/ai.service.ts:105 | a content that does not parse yields the fallback |
| `Classifier.MissingMessageFallsBack` | api/src/services/ai.service.ts:108-110 | a parsed decision with a missing or empty message yields the fallback |
| `Classifier.ParsedDecisionPassesThrough` | api/src/services/ai.service.ts:112 | a parsed decision with a message is returned unchanged, with department and shouldTransfer not re-validated |
| `Classifier.DecisionIsParsedOrFallback` | api/src/services/ai.service.ts:98-123 | every decision returned is either the fallback or exactly what the parser produced from the first choice's content |
| `Conversations.DepartmentValue` | api/src/services/message.service.ts:5 | a string names a department exactly when it is that department's name; any other string names none |
| `Conversations.DepartmentRoundTrip` | api/src/services/message.service.ts:5 | reading a department's name gives back that department |
| `Conversations.ToHistory` | api/src/services/message.service.ts:81-84 | the history has the messages' length and order, content unchanged, and role 'user' exactly for USER messages ('assistant' for every other role) |
| `Conversations.TransferRequested` | api/src/services/message.service.ts:99 | the truthiness of `shouldTransfer && department`: shouldTransfer holds and the department is neither null nor the empty string |
| `Conversations.StoredSummary` | api/src/services/message.service.ts:105 | `summary \|\| null`: an absent or empty summary is stored as null, any other is stored as given |
| `Conversations.Triaged` | api/src/services/message.service.ts:65-108 | one call on the resolved conversation keeps its id and creation time, and a successful call returns the conversation as it is left |
| `Conversations.TransferredIsRefused` | api/src/services/message.service.ts:65-69 | a TRANSFERRED conversation is refused with AlreadyTransferred and left exactly as it was |
| `Conversations.ExchangeAppendsTwo` | api/src/services/message.service.ts:72-96 | past the guard, exactly two messages are appended after the unchanged earlier ones: USER with the content, then ASSISTANT with the decision's message, in stamp order |
| `Conversations.TransferExactlyWhenRequested` | api/src/services/message.service.ts:99-108 | past the guard, the conversation becomes TRANSFERRED with the decision's department and stored summary exactly when shouldTransfer holds, the department is non-empty and the store accepts it; otherwise status, department and summary are unchanged |
| `Conversations.FailsOnlyOnGuardOrRejectedDepartment` | api/src/services/message.service.ts:65-108 | a call fails exactly on a transferred conversation or on a department the store refuses; a successful call adds exactly two messages |
| `Conversations.DepartmentInvariantKept` | api/src/services/message.service.ts:99-107 | if "department recorded ⇒ TRANSFERRED" holds before a call, it holds after it |
| `Conversations.TransferredDepartmentKept` | api/src/services/message.service.ts:100-106 | if "TRANSFERRED ⇒ department recorded" holds before a call, it holds after it: TRANSFERRED is written only together with a department |
| `Conversations.FallbackNeverTransfers` | api/src/services/message.service.ts:99-108 | the classifier's fallback decision (ai.service.ts:117-122) does not request a transfer and leaves status, department and summary unchanged |
| `Conversations.ClassifierSeesConversation` | api/src/services/message.service.ts:81-87 | the classifier receives the system prompt, then every stored message in order with USER as 'user' and other roles as 'assistant', then the new content as 'user' |
| `Conversations.Run` | api/src/services/message.service.ts:38-125 | a series of calls on one conversation keeps its id and creation time |
| `Conversations.TransferredIsFinal` | api/src/services/message.service.ts:65-69 | once TRANSFERRED, no later series of calls changes the conversation: no message, no field |
| `Conversations.RunKeepsDepartmentInvariant` | api/src/services/message.service.ts:99-107 | over any series of calls, a department is only found on a TRANSFERRED conversation |
| `Conversations.RunKeepsTransferredDepartment` | api/src/services/message.service.ts:100-106 | over any series of calls, a TRANSFERRED conversation always has its department |
| `Conversations.RunAppendsPairs` | api/src/services/message.service.ts:72-96 | over any series of calls, earlier messages stay, the count grows by an even number, and the new messages alternate USER, ASSISTANT |
| `Service.FreshId` | api/src/services/message.service.ts:54-61 | the id given to a new conversation is non-empty and not used by any stored conversation |
| `Service.FindLoaded` | api/src/services/message.service.ts:42-51 | a conversation is loaded exactly when the id is present, non-empty and stored, and it is the stored one |
| `Service.NewestFirst` | api/src/services/message.service.ts:149 | the conversations named by the creation-ordered ids, last created first |
| `Service.MessageService.CreateConversation` | api/src/services/message.service.ts:54-61 | adds a conversation under a fresh id with status OPEN, no department, no summary, no messages, stamped now; nothing else changes |
| `Service.MessageService.InsertMessage` | api/src/services/message.service.ts:72-78 | appends one message with the given role and content, stamped now, to that conversation only |
| `Service.MessageService.UpdateTransferred` | api/src/services/message.service.ts:100-107 | sets TRANSFERRED, the department and the summary when the department is one of the three; otherwise writes nothing |
| `Service.MessageService.GetConversation` | api/src/services/message.service.ts:127-140 | the stored conversation under that id, with its messages in ascending createdAt order, or none when no such id is stored |
| `Service.MessageService.GetAllConversations` | api/src/services/message.service.ts:142-153 | every stored conversation and nothing else, no filter, ordered strictly by createdAt descending |
| `Service.MessageService.CreateMessage` | api/src/services/message.service.ts:38-125 | resolves or creates the conversation, then leaves it as `Triaged` says for the decision `AnalyzeMessage` gives on the history loaded before the insert; returns what `Triaged` returns, which on success is the stored conversation with its messages in ascending order; every other conversation is unchanged; keeps both "department ⇒ TRANSFERRED" and "TRANSFERRED ⇒ department" over the whole store |
| `Service.MessageService.Resolve` | api/src/services/message.service.ts:42-62 | the stored conversation when found, otherwise a new OPEN conversation with no messages under a fresh id; no not-found error |
| `Service.MessageService.Converse` | api/src/services/message.service.ts:71-124 | past the guard, the store changes only at the resolved id, to what `Triaged` gives for the classifier's decision on the history as loaded |
| `Service.MessageService.Conclude` | api/src/services/message.service.ts:89-124 | once the decision is known, appends the reply, applies the transfer if requested and returns the reloaded conversation, as `Triaged` says |

## Left out

- HTTP routing, server start-up, request schemas and status codes (`message.routes.ts`,
  `server.ts`, `message.schema.ts`). These are framework plumbing. The content bound 1..2000
  belongs to the route, so `CreateMessage` does not require it.
- The completion call, its model name, `temperature`, `max_tokens` and `JSON.parse`. These are
  foreign calls. They are the parameters `complete` and `parse`, and a parse failure is `None`.
  The parsed fields are typed: a non-boolean `shouldTransfer` or a non-string `message` is not
  modelled. A missing message is the empty string, since the source treats both alike.
- The wording of the system prompt. `SystemPrompt` is a stand-in constant.
- The error log written in the classifier's catch block.
- Database technology, `updatedAt`, message ids and failures of the store itself. `createdAt`
  is a tick of a monotone clock. The generated cuid is replaced by `FreshId`, which is an id
  longer than every stored one.
- The "conversation not found after update" error (`message.service.ts:120-122`). It cannot
  happen here, because nothing deletes a conversation. `CreateMessage` proves that the reload
  finds the conversation.
- Service.MessageService.UpdateTransferred: assumes that the database refuses a department
  outside SALES, SUPPORT and FINANCE. The schema is not part of this model. The only hints are
  the service's type (`message.service.ts:5`), the route's enumeration (`message.routes.ts:130`)
  and the client's type (`web/src/types/message.ts:12`). If the column were plain text, the
  source would store any non-empty string, such as "HR", and succeed. The model instead fails
  with `DepartmentRejected` and keeps the status, so the `DepartmentRejected` path of `Triaged`
  and `FailsOnlyOnGuardOrRejectedDepartment` rest on this assumption.
- Concurrent requests on one conversation. The model is sequential.
- `getQueuesOverview`, which the route calls (`message.routes.ts:171`). The service does not
  define it, and it is not part of this model.
- The web client (`web/src/**`). It renders the UI, holds React state, does fetch I/O and
  carries documentation.
