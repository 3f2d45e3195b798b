/** A model of the ConversationManager of the multi-agent conversation demo:
    an agent registry loaded from an already-parsed configuration document,
    an append-only log of conversation topics with a newest-first lookup, and
    the three-try retry wrapper around starting a two-party chat.

    The hosted language model and the agent library are not modelled: the
    outcome of each remote chat attempt is a parameter, and what the manager
    hands to the remote side is returned as a `ChatRequest` value. */
module MultiAgentConversation {

  datatype Option<T> = None | Some(value: T)

  datatype Result<T, E> = Success(value: T) | Failure(error: E)

  // ---------------------------------------------------------------------
  // Agents and their termination predicate
  // ---------------------------------------------------------------------

  /** The phrase whose presence in a reply ends a conversation. */
  const TerminationPhrase: string := "See you again later"

  /** `pattern` occurs in `text` starting at index i. */
  ghost predicate OccursAt(pattern: string, text: string, i: nat)
  {
    i + |pattern| <= |text| && text[i..i + |pattern|] == pattern
  }

  /** Reference meaning of Python's `pattern in text` on strings. */
  ghost predicate IsSubstring(pattern: string, text: string)
  {
    exists i: nat :: OccursAt(pattern, text, i)
  }

  /** Left-to-right search for `pattern` inside `text`. */
  predicate Contains(text: string, pattern: string)
    decreases |text|
  {
    if |text| < |pattern| then false
    else text[..|pattern|] == pattern || Contains(text[1..], pattern)
  }

  lemma {:induction false} ContainsIsSubstring(text: string, pattern: string)
    ensures Contains(text, pattern) <==> IsSubstring(pattern, text)
    decreases |text|
  {
    if |text| < |pattern| {
      assert forall i: nat :: !OccursAt(pattern, text, i);
    } else if text[..|pattern|] == pattern {
      assert OccursAt(pattern, text, 0);
    } else {
      ContainsIsSubstring(text[1..], pattern);
      if Contains(text[1..], pattern) {
        var i: nat :| OccursAt(pattern, text[1..], i);
        assert text[1..][i..i + |pattern|] == text[i + 1..i + 1 + |pattern|];
        assert OccursAt(pattern, text, i + 1);
      }
      if IsSubstring(pattern, text) {
        var i: nat :| OccursAt(pattern, text, i);
        assert i != 0;
        assert text[1..][i - 1..i - 1 + |pattern|] == text[i..i + |pattern|];
        assert OccursAt(pattern, text[1..], i - 1);
      }
    }
  }

  /** A configured participant: the registry's value type. */
  datatype Agent = Agent(name: string, systemMessage: string)
  {
    /** The termination predicate every agent is built with. */
    predicate IsTerminationMsg(content: string)
    {
      Contains(content, TerminationPhrase)
    }
  }

  lemma TerminationMsgIff(agent: Agent, content: string)
    ensures agent.IsTerminationMsg(content) <==> IsSubstring(TerminationPhrase, content)
  {
    ContainsIsSubstring(content, TerminationPhrase);
  }

  // ---------------------------------------------------------------------
  // The agent registry and its loading rule
  // ---------------------------------------------------------------------

  /** One entry of the configuration's `agents` list. */
  datatype AgentDefinition = AgentDefinition(name: string, systemMessage: string)

  /** The parsed configuration document; `agents` is `None` when the key is absent. */
  datatype ConfigDocument = ConfigDocument(agents: Option<seq<AgentDefinition>>)

  /** `config.get('agents', [])`: the list under the key, or no definitions. */
  function DefinitionsOf(config: ConfigDocument): seq<AgentDefinition>
  {
    match config.agents
    case None => []
    case Some(definitions) => definitions
  }

  function AgentOf(definition: AgentDefinition): Agent
  {
    Agent(definition.name, definition.systemMessage)
  }

  function Names(definitions: seq<AgentDefinition>): set<string>
  {
    set d | d in definitions :: d.name
  }

  /** The registry after storing each definition in order, a later definition
      overwriting an earlier one with the same name. Nothing is removed, and
      every definition's name ends up registered. */
  function Register(registry: map<string, Agent>, definitions: seq<AgentDefinition>): (r: map<string, Agent>)
    ensures registry.Keys <= r.Keys
    ensures forall i :: 0 <= i < |definitions| ==> definitions[i].name in r
    decreases |definitions|
  {
    if definitions == [] then registry
    else
      var last := definitions[|definitions| - 1];
      Register(registry, definitions[..|definitions| - 1])[last.name := AgentOf(last)]
  }

  /** Every agent is stored under its own name. */
  predicate KeyedByName(registry: map<string, Agent>)
  {
    forall name :: name in registry ==> registry[name].name == name
  }

  predicate DistinctNames(definitions: seq<AgentDefinition>)
  {
    forall i, j :: 0 <= i < j < |definitions| ==> definitions[i].name != definitions[j].name
  }

  lemma {:induction false} RegisterKeys(registry: map<string, Agent>, definitions: seq<AgentDefinition>)
    ensures Register(registry, definitions).Keys == registry.Keys + Names(definitions)
    decreases |definitions|
  {
    if definitions != [] {
      var prefix := definitions[..|definitions| - 1];
      RegisterKeys(registry, prefix);
      assert definitions == prefix + [definitions[|definitions| - 1]];
      assert Names(definitions) == Names(prefix) + {definitions[|definitions| - 1].name};
    }
  }

  /** The last definition carrying a name decides the agent stored under it. */
  lemma {:induction false} RegisterLastWins(registry: map<string, Agent>, definitions: seq<AgentDefinition>, i: nat)
    requires i < |definitions|
    requires forall j :: i < j < |definitions| ==> definitions[j].name != definitions[i].name
    ensures definitions[i].name in Register(registry, definitions)
    ensures Register(registry, definitions)[definitions[i].name] == AgentOf(definitions[i])
    decreases |definitions|
  {
    if i < |definitions| - 1 {
      RegisterLastWins(registry, definitions[..|definitions| - 1], i);
    }
  }

  /** A name no definition carries keeps whatever the registry held before. */
  lemma {:induction false} RegisterKeepsOthers(registry: map<string, Agent>, definitions: seq<AgentDefinition>, name: string)
    requires forall j :: 0 <= j < |definitions| ==> definitions[j].name != name
    ensures name in Register(registry, definitions) <==> name in registry
    ensures name in registry ==> Register(registry, definitions)[name] == registry[name]
    decreases |definitions|
  {
    if definitions != [] {
      RegisterKeepsOthers(registry, definitions[..|definitions| - 1], name);
    }
  }

  lemma {:induction false} RegisterKeyedByName(registry: map<string, Agent>, definitions: seq<AgentDefinition>)
    requires KeyedByName(registry)
    ensures KeyedByName(Register(registry, definitions))
    decreases |definitions|
  {
    if definitions != [] {
      RegisterKeyedByName(registry, definitions[..|definitions| - 1]);
    }
  }

  /** With distinct names, loading n definitions into an empty registry gives n agents. */
  lemma {:induction false} RegisterDistinctSize(definitions: seq<AgentDefinition>)
    requires DistinctNames(definitions)
    ensures |Register(map[], definitions)| == |definitions|
    decreases |definitions|
  {
    if definitions != [] {
      var prefix := definitions[..|definitions| - 1];
      var last := definitions[|definitions| - 1];
      RegisterDistinctSize(prefix);
      RegisterKeys(map[], prefix);
      assert last.name !in Names(prefix);
    }
  }

  /** The registry the loader builds from the two-agent document of the unit tests. */
  lemma TwoAgentDocumentLoadsTwoAgents()
    ensures var registry := Register(map[], DefinitionsOf(ConfigDocument(Some([
              AgentDefinition("Ptolmey", "You are Ptolemy."),
              AgentDefinition("Aryabhata", "You are Aryabhata.")]))));
            |registry| == 2 && "Ptolmey" in registry && "Aryabhata" in registry
            && "Ptolemy" !in registry
  {
    var definitions := [
      AgentDefinition("Ptolmey", "You are Ptolemy."),
      AgentDefinition("Aryabhata", "You are Aryabhata.")];
    assert DefinitionsOf(ConfigDocument(Some(definitions))) == definitions;
    RegisterDistinctSize(definitions);
    RegisterKeys(map[], definitions);
    assert Names(definitions) == {"Ptolmey", "Aryabhata"};
  }

  // ---------------------------------------------------------------------
  // The topic log and its newest-first lookup
  // ---------------------------------------------------------------------

  /** One entry of the topic log (the wall-clock timestamp is not modelled). */
  datatype TopicRecord = TopicRecord(initiator: string, recipient: string, topic: string)
  {
    predicate Mentions(name: string)
    {
      initiator == name || recipient == name
    }
  }

  /** Record `i` is the newest one that mentions `name`. */
  ghost predicate IsLastMention(log: seq<TopicRecord>, name: string, i: int)
  {
    0 <= i < |log| && log[i].Mentions(name)
    && forall j :: i < j < |log| ==> !log[j].Mentions(name)
  }

  /** The topic of the newest record mentioning `name`, scanning from the end. */
  function LastTopic(log: seq<TopicRecord>, name: string): (r: Option<string>)
    ensures r.None? <==> forall i :: 0 <= i < |log| ==> !log[i].Mentions(name)
    ensures r.Some? ==> exists i :: IsLastMention(log, name, i) && r.value == log[i].topic
    decreases |log|
  {
    if log == [] then None
    else if log[|log| - 1].Mentions(name) then
      assert IsLastMention(log, name, |log| - 1);
      Some(log[|log| - 1].topic)
    else
      var r := LastTopic(log[..|log| - 1], name);
      assert forall i :: IsLastMention(log[..|log| - 1], name, i) ==> IsLastMention(log, name, i);
      r
  }

  /** The converse: whichever record is the newest mention decides the answer. */
  lemma LastTopicOfLastMention(log: seq<TopicRecord>, name: string, i: int)
    requires IsLastMention(log, name, i)
    ensures LastTopic(log, name) == Some(log[i].topic)
  {
    var r := LastTopic(log, name);
    var k :| IsLastMention(log, name, k) && r.value == log[k].topic;
    assert k == i;
  }

  /** Appending one record: it answers for the names it mentions, all other
      names keep their previous answer. */
  lemma LastTopicAppend(log: seq<TopicRecord>, record: TopicRecord, name: string)
    ensures LastTopic(log + [record], name)
         == if record.Mentions(name) then Some(record.topic) else LastTopic(log, name)
  {
    assert (log + [record])[..|log|] == log;
  }

  /** k copies of `x`: what k attempts of the same call append. */
  function Repeat<T>(x: T, k: nat): (s: seq<T>)
    ensures |s| == k && forall j :: 0 <= j < k ==> s[j] == x
  {
    if k == 0 then [] else Repeat(x, k - 1) + [x]
  }

  /** Appending the same record several times answers every lookup exactly as
      appending it once. */
  lemma {:induction false} LastTopicRepeated(log: seq<TopicRecord>, record: TopicRecord, k: nat, name: string)
    requires k >= 1
    ensures LastTopic(log + Repeat(record, k), name) == LastTopic(log + [record], name)
  {
    if k > 1 {
      LastTopicRepeated(log, record, k - 1, name);
      assert log + Repeat(record, k) == (log + Repeat(record, k - 1)) + [record];
      LastTopicAppend(log + Repeat(record, k - 1), record, name);
      LastTopicAppend(log, record, name);
    } else {
      assert Repeat(record, 1) == [record];
    }
  }

  /** The lookup of the unit tests: two records between the same pair. */
  lemma TwoRecordLogLookup()
    ensures var log := [TopicRecord("Ptolmey", "Aryabhata", "Discovery"),
                        TopicRecord("Aryabhata", "Ptolmey", "Follow-up")];
            LastTopic(log, "Aryabhata") == Some("Follow-up")
            && LastTopic(log, "Ptolmey") == Some("Follow-up")
            && LastTopic(log, "Ptolemy") == None
  {
  }

  // ---------------------------------------------------------------------
  // Starting a conversation, with retries
  // ---------------------------------------------------------------------

  /** `max_tries` of the backoff decorator. */
  const MaxTries: nat := 3

  /** The message of the KeyError raised for an unregistered name. */
  const AgentNotFound: string := "Initiator or recipient agent not found"

  const SummaryMethod: string := "reflection_with_llm"
  const SummaryPrompt: string := "Summarize the conversation"

  /** What the remote exchange returns (its cost report is not modelled). */
  datatype ChatResult = ChatResult(chatHistory: seq<string>, summary: string)

  /** How one remote exchange attempt ends. */
  datatype ChatOutcome = Completed(result: ChatResult) | Raised(reason: string)

  /** What a call of initiate_conversation can raise. */
  datatype ConversationError = KeyError(message: string) | ChatError(reason: string)

  /** The arguments handed to the initiator's remote `initiate_chat`. */
  datatype ChatRequest = ChatRequest(
    initiator: Agent, recipient: Agent, message: string, maxTurns: int,
    summaryMethod: string, summaryPrompt: string)

  function AsResult(outcome: ChatOutcome): Result<ChatResult, ConversationError>
  {
    match outcome
    case Completed(result) => Success(result)
    case Raised(reason) => Failure(ChatError(reason))
  }

  /** The number of attempts the retry wrapper makes when every attempt reaches
      the remote exchange: up to and including the first success, at most MaxTries. */
  function TriesNeeded(outcomes: seq<ChatOutcome>, start: nat): (k: nat)
    requires start < MaxTries <= |outcomes|
    ensures start < k <= MaxTries
    ensures forall j :: start <= j < k - 1 ==> outcomes[j].Raised?
    ensures outcomes[k - 1].Completed? || k == MaxTries
    decreases MaxTries - start
  {
    if outcomes[start].Completed? || start + 1 == MaxTries then start + 1
    else TriesNeeded(outcomes, start + 1)
  }

  /** The attempt count is determined by the outcomes: any count with only
      failures before it, ending in a success or at the cap, is TriesNeeded. */
  lemma TriesNeededUnique(outcomes: seq<ChatOutcome>, k: nat)
    requires MaxTries <= |outcomes|
    requires 1 <= k <= MaxTries
    requires forall j :: 0 <= j < k - 1 ==> outcomes[j].Raised?
    requires outcomes[k - 1].Completed? || k == MaxTries
    ensures TriesNeeded(outcomes, 0) == k
  {
    var n := TriesNeeded(outcomes, 0);
    assert outcomes[n - 1].Raised? || k <= n;
    assert outcomes[k - 1].Raised? || n <= k;
  }

  /** A new record appended k >= 1 times is what the lookup then reports for
      both parties. */
  lemma LastTopicAfterRecords(log: seq<TopicRecord>, record: TopicRecord, k: nat, name: string)
    requires k >= 1 && record.Mentions(name)
    ensures LastTopic(log + Repeat(record, k), name) == Some(record.topic)
  {
    LastTopicRepeated(log, record, k, name);
    LastTopicAppend(log, record, name);
  }

  // ---------------------------------------------------------------------
  // The manager
  // ---------------------------------------------------------------------

  class ConversationManager {
    var agents: map<string, Agent>
    var topicHistory: seq<TopicRecord>
    const configPath: string

    /** Every registered agent is stored under its own name. */
    predicate Valid()
      reads this
    {
      KeyedByName(agents)
    }

    predicate BothRegistered(initiatorName: string, recipientName: string)
      reads this
    {
      initiatorName in agents && recipientName in agents
    }

    /** Construction from an already-read configuration document. */
    constructor (config: ConfigDocument, configPath: string := "config.yaml")
      ensures Valid()
      ensures this.configPath == configPath
      ensures agents == Register(map[], DefinitionsOf(config))
      ensures agents.Keys == Names(DefinitionsOf(config))
      ensures config.agents.None? ==> agents == map[]
      ensures topicHistory == []
    {
      agents := map[];
      topicHistory := [];
      this.configPath := configPath;
      new;
      LoadAgents(config);
      RegisterKeys(map[], DefinitionsOf(config));
    }

    /** Store one agent per definition, in order, overwriting on a repeated name. */
    method LoadAgents(config: ConfigDocument)
      requires Valid()
      modifies this
      ensures Valid()
      ensures agents == Register(old(agents), DefinitionsOf(config))
      ensures topicHistory == old(topicHistory)
    {
      var definitions := DefinitionsOf(config);
      for i := 0 to |definitions|
        invariant agents == Register(old(agents), definitions[..i])
        invariant topicHistory == old(topicHistory)
      {
        var definition := definitions[i];
        assert definitions[..i + 1][..i] == definitions[..i];
        agents := agents[definition.name := AgentOf(definition)];
      }
      assert definitions[..|definitions|] == definitions;
      RegisterKeyedByName(old(agents), definitions);
    }

    /** The newest record mentioning `agentName`, scanning the log backwards. */
    method GetLastTopic(agentName: string) returns (topic: Option<string>)
      ensures topic == LastTopic(topicHistory, agentName)
    {
      var i := |topicHistory|;
      while i > 0
        invariant 0 <= i <= |topicHistory|
        invariant LastTopic(topicHistory, agentName) == LastTopic(topicHistory[..i], agentName)
      {
        var record := topicHistory[i - 1];
        if record.initiator == agentName || record.recipient == agentName {
          return Some(record.topic);
        }
        assert topicHistory[..i][..i - 1] == topicHistory[..i - 1];
        i := i - 1;
      }
      return None;
    }

    /** One run of the undecorated body: check both names, record the topic,
        then hand the exchange to the remote side, whose outcome is `outcome`. */
    method Attempt(initiatorName: string, recipientName: string, initialMessage: string,
                   outcome: ChatOutcome, maxTurns: int := 2)
      returns (r: Result<ChatResult, ConversationError>, request: Option<ChatRequest>)
      requires Valid()
      modifies this
      ensures Valid() && agents == old(agents)
      ensures !BothRegistered(initiatorName, recipientName) ==>
        r == Failure(KeyError(AgentNotFound)) && request == None
        && topicHistory == old(topicHistory)
      ensures BothRegistered(initiatorName, recipientName) ==>
        topicHistory == old(topicHistory) + [TopicRecord(initiatorName, recipientName, initialMessage)]
        && request == Some(ChatRequest(agents[initiatorName], agents[recipientName], initialMessage,
                                       maxTurns, SummaryMethod, SummaryPrompt))
        && request.value.initiator.name == initiatorName
        && request.value.recipient.name == recipientName
        && r == AsResult(outcome)
    {
      if initiatorName !in agents || recipientName !in agents {
        return Failure(KeyError(AgentNotFound)), None;
      }
      var initiator := agents[initiatorName];
      var recipient := agents[recipientName];
      topicHistory := topicHistory + [TopicRecord(initiatorName, recipientName, initialMessage)];
      request := Some(ChatRequest(initiator, recipient, initialMessage, maxTurns, SummaryMethod, SummaryPrompt));
      r := AsResult(outcome);
    }

    /** The decorated method: the whole body is retried on any exception, up to
        MaxTries attempts; `outcomes[k]` is how the remote exchange of attempt k
        would end. Returns the result, the remote requests made and the number
        of attempts. */
    method InitiateConversation(initiatorName: string, recipientName: string, initialMessage: string,
                                outcomes: seq<ChatOutcome>, maxTurns: int := 2)
      returns (r: Result<ChatResult, ConversationError>, requests: seq<ChatRequest>, attempts: nat)
      requires Valid()
      requires |outcomes| == MaxTries
      modifies this
      ensures Valid() && agents == old(agents)
      ensures 1 <= attempts <= MaxTries
      ensures !BothRegistered(initiatorName, recipientName) ==>
        attempts == MaxTries && r == Failure(KeyError(AgentNotFound)) && requests == []
        && topicHistory == old(topicHistory)
      ensures BothRegistered(initiatorName, recipientName) ==>
        var record := TopicRecord(initiatorName, recipientName, initialMessage);
        var request := ChatRequest(agents[initiatorName], agents[recipientName], initialMessage,
                                   maxTurns, SummaryMethod, SummaryPrompt);
        request.initiator.name == initiatorName && request.recipient.name == recipientName
        && attempts == TriesNeeded(outcomes, 0)
        && r == AsResult(outcomes[attempts - 1])
        && topicHistory == old(topicHistory) + Repeat(record, attempts)
        && requests == Repeat(request, attempts)
        && LastTopic(topicHistory, initiatorName) == Some(initialMessage)
        && LastTopic(topicHistory, recipientName) == Some(initialMessage)
    {
      var known := BothRegistered(initiatorName, recipientName);
      var record := TopicRecord(initiatorName, recipientName, initialMessage);
      requests := [];
      attempts := 0;
      while true
        invariant 0 <= attempts < MaxTries
        invariant agents == old(agents)
        invariant known == BothRegistered(initiatorName, recipientName)
        invariant !known ==> topicHistory == old(topicHistory) && requests == []
        invariant known ==>
          topicHistory == old(topicHistory) + Repeat(record, attempts)
          && requests == Repeat(ChatRequest(agents[initiatorName], agents[recipientName], initialMessage,
                                             maxTurns, SummaryMethod, SummaryPrompt), attempts)
          && forall j :: 0 <= j < attempts ==> outcomes[j].Raised?
        decreases MaxTries - attempts
      {
        var result, request := Attempt(initiatorName, recipientName, initialMessage, outcomes[attempts], maxTurns);
        attempts := attempts + 1;
        if request.Some? {
          requests := requests + [request.value];
        }
        if result.Success? || attempts == MaxTries {
          if known {
            TriesNeededUnique(outcomes, attempts);
            LastTopicAfterRecords(old(topicHistory), record, attempts, initiatorName);
            LastTopicAfterRecords(old(topicHistory), record, attempts, recipientName);
          }
          return result, requests, attempts;
        }
      }
    }
  }
}
