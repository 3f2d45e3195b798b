# Multi-agent conversation manager, modelled in Dafny

This project models the `ConversationManager` of a demo that runs scripted
dialogues between two personas (Ptolemy and Aryabhata) through a conversational
agent library and a hosted language model. Only the manager's own logic is
modelled. The model has three parts:

- **Agent registry.** An already-parsed configuration document is folded into
  a name → agent map. A later definition with the same name overwrites an
  earlier one. A document without an `agents` key gives an empty registry.
  Every agent carries the same termination predicate: the reply contains
  "See you again later".
- **Topic log.** This is an append-only sequence of
  `{initiator, recipient, topic}` records. Its lookup scans from the newest
  record backwards and returns the topic of the first record that mentions a
  name, or nothing.
- **Starting a conversation.** The method checks both names, appends one
  record and hands the exchange to the remote agent library. A backoff
  decorator wraps the whole method and allows at most 3 tries.

Everything lives in module `MultiAgentConversation`
(`multi_agent_conversation.dfy`). The class `ConversationManager` has two
fields that its methods update: `agents` (a `map`) and `topicHistory` (a
`seq`). `LastTopic`, `Register` and `TriesNeeded` are the pure functions
that specify the methods.

The remote exchange is not modelled. `InitiateConversation` takes
`outcomes: seq<ChatOutcome>`, where entry k says how the remote exchange of
attempt k ends: `Completed(result)` or `Raised(reason)`. The method returns
three things: the result, the `ChatRequest` values it handed to the remote
side (initiator and recipient agents, message, `maxTurns`, summary method
and prompt), and the number of attempts.

Registry keys are exact strings. `"Ptolmey"`, the key the demo uses, and
`"Ptolemy"`, the spelling in the persona text, are different agents. The
model does no normalisation.

Two behaviours of the retry decorator are easy to miss in the code, and the
model follows the code as written:

- The comment at src/MultiAgentConversation.py:115 places the retry at the
  remote call. The backoff decorator at line 83 retries the whole method
  body instead. So each attempt that passes the name check at line 101
  appends its own record at line 108. A call that succeeds on attempt k
  leaves k records. They are identical except for their timestamps, which
  the model does not keep. `LastTopicRepeated` shows that lookups answer as
  if there were one record.
- An unknown name raises `KeyError("Initiator or recipient agent not found")`
  (line 102). The decorator retries on every exception, so this error is
  raised on all 3 attempts. No record is appended and the remote side is
  never called.

## Model

| member | source | states |
|---|---|---|
| `MultiAgentConversation.ContainsIsSubstring` | src/MultiAgentConversation.py:80 | the left-to-right search `Contains(text, pattern)` is true exactly when `pattern` occurs at some index of `text` (Python's `in` on strings), in both directions |
| `MultiAgentConversation.TerminationMsgIff` | src/MultiAgentConversation.py:80 | an agent's termination predicate holds of a message content exactly when "See you again later" is a substring of it |
| `MultiAgentConversation.Register` | src/MultiAgentConversation.py:72-81 | the fold of the loader's loop, each definition stored under its name in order: no earlier key is lost, and every definition's name ends up a key |
| `MultiAgentConversation.RegisterKeys` | src/MultiAgentConversation.py:72-81 | the loaded registry's key set is the earlier keys plus the set of names in the definition list |
| `MultiAgentConversation.RegisterLastWins` | src/MultiAgentConversation.py:72-81 | the agent stored under a name is built from the last definition carrying that name (its name and system message) |
| `MultiAgentConversation.RegisterKeepsOthers` | src/MultiAgentConversation.py:72-81 | a name that no definition carries is present afterwards exactly when it was before, with the same agent |
| `MultiAgentConversation.RegisterKeyedByName` | src/MultiAgentConversation.py:72-81 | loading keeps the invariant that every agent is stored under its own name |
| `MultiAgentConversation.RegisterDistinctSize` | src/MultiAgentConversation.py:72-81 | with pairwise distinct names, loading n definitions into an empty registry gives exactly n agents |
| `MultiAgentConversation.TwoAgentDocumentLoadsTwoAgents` | tests/test_multiagent.py:116-130 | the two-definition document of the unit test gives a registry of size 2 holding "Ptolmey" and "Aryabhata" (and not "Ptolemy") |
| `MultiAgentConversation.ConversationManager.constructor` | src/MultiAgentConversation.py:26-37 | a new manager has an empty topic log and a registry that is `Register(map[], DefinitionsOf(config))`, the fold of the document's definitions, where `DefinitionsOf` is `config.get('agents', [])` of src/MultiAgentConversation.py:72 (`config_path` defaults to "config.yaml"); it is keyed by name, its keys are the definitions' names, and it is empty when the `agents` key is missing |
| `MultiAgentConversation.ConversationManager.LoadAgents` | src/MultiAgentConversation.py:72-81 | the loop leaves `agents` equal to the fold of the definitions over the previous registry, keeps the keyed-by-name invariant and leaves the topic log unchanged |
| `MultiAgentConversation.LastTopic` | src/MultiAgentConversation.py:135-138 | the lookup is None exactly when no record mentions the name (so always None on an empty log); otherwise it is the topic of a record that mentions the name and has no later record mentioning it |
| `MultiAgentConversation.LastTopicOfLastMention` | src/MultiAgentConversation.py:135-138 | conversely, whichever record is the newest one mentioning a name decides the lookup's answer |
| `MultiAgentConversation.LastTopicAppend` | src/MultiAgentConversation.py:108-113 | after one record is appended, names it mentions get its topic and every other name keeps its previous answer |
| `MultiAgentConversation.LastTopicRepeated` | src/MultiAgentConversation.py:83 | appending the same record k >= 1 times, as k attempts do, answers every lookup exactly as appending it once |
| `MultiAgentConversation.TwoRecordLogLookup` | tests/test_multiagent.py:155-160 | with the unit test's log (Ptolmey→Aryabhata "Discovery", then Aryabhata→Ptolmey "Follow-up"), "Aryabhata" and "Ptolmey" get "Follow-up" and "Ptolemy" gets None |
| `MultiAgentConversation.ConversationManager.GetLastTopic` | src/MultiAgentConversation.py:125-138 | the backwards scan with early return yields `LastTopic` of the current log; it changes neither the log nor the registry |
| `MultiAgentConversation.TriesNeeded` | src/MultiAgentConversation.py:83 | the attempt count is between 1 and 3, every attempt before the last one failed, and the last one succeeded or was the third |
| `MultiAgentConversation.TriesNeededUnique` | src/MultiAgentConversation.py:83 | any count with only failures before it that ends in a success or at the cap is that attempt count |
| `MultiAgentConversation.LastTopicAfterRecords` | src/MultiAgentConversation.py:108-113 | after k >= 1 copies of a record are appended, the lookup of either party it names returns its topic |
| `MultiAgentConversation.ConversationManager.Attempt` | src/MultiAgentConversation.py:101-123 | one run of the body: an unknown name raises KeyError("Initiator or recipient agent not found") with the log unchanged and no remote request; otherwise exactly the record {initiator, recipient, topic} is appended after the old log, the remote request carries the two registered agents, the message, `maxTurns` and the summary settings, and the remote outcome is returned; the registry and its keyed-by-name invariant are unchanged in both cases |
| `MultiAgentConversation.ConversationManager.InitiateConversation` | src/MultiAgentConversation.py:83-123 | with an unknown name: 3 attempts, KeyError, log unchanged, no remote request; otherwise the attempt count is `TriesNeeded` of the outcomes, the result is that last attempt's outcome (success, or the third failure), the log gains exactly that many identical records and the remote side that many identical requests, and afterwards the lookup of both parties returns the message; the registry never changes |

## Left out

- LLM configuration and the API-key lookup (src/MultiAgentConversation.py:39-54) are left out. They read the environment and build a constant dictionary that the model's agents do not need. Construction can also fail here before any agent is loaded: tests/test_multiagent.py:30-35 expects the key helper to raise `ValueError` when `GEMINI_API_KEY` is unset. That failure is not modelled either. The key helper `src.utils` is not part of this model.
- Opening the file and parsing the YAML (src/MultiAgentConversation.py:64-70) are left out. The constructor takes the already-parsed document, so `FileNotFoundError` and `yaml.YAMLError` are not modelled.
- Malformed documents the loader does not guard against are left out. The model's definitions always carry both strings. The cases not modelled are these:
  - an empty YAML document: `safe_load` returns None and `.get` fails;
  - an `agents` value that is not a list;
  - an entry without `name`: its agent is stored under the key `None` (lines 73 and 75);
  - an entry without `system_message`: its agent is stored under its own name, built with `system_message=None` (lines 74 and 77).
- The agent library (`ConversableAgent`, `initiate_chat`, `send`) and the hosted model are left out. They are foreign network code. The registry's agent holds only its name and system message; `llm_config` and `human_input_mode="NEVER"` are not kept.
- The exchange's cost report is not in `ChatResult`. It is a foreign, floating-point structure.
- The termination predicate takes the message content string. Two messages are not modelled: one without a `content` field, which raises `KeyError` in the lambda, and one whose `content` is `None`, which raises `TypeError` there.
- `InitiateConversation` has no sleeping. The exponential backoff delays and jitter between attempts are wall-clock behaviour, and only the attempt count is modelled.
- The `time.time()` timestamp of each topic record is not modelled. No property depends on it.
- `main()` (src/MultiAgentConversation.py:140-178) is demo plumbing and printing and is left out.
- Unsynchronised appends from several threads are not modelled. The model is sequential.
