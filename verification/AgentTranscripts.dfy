/** What the provider gets to see over a whole run of the agent loop. */
module AgentTranscripts {
  import opened Transcript
  import opened AnthropicGrouping
  import opened LlmOutside
  import opened LlmClientModel

  /** `ms` is the initial list followed by well-formed rounds. */
  ghost predicate Continues(ms: seq<Message>, initial: seq<Message>) {
    |initial| <= |ms| && ms[..|initial|] == initial && WellFormed(ms[|initial|..])
  }

  lemma {:induction false} RoundsContinue(initial: seq<Message>, rounds: seq<Round>)
    requires AllComplete(rounds)
    ensures Continues(Working(initial, rounds), initial)
  {
    WorkingWellFormed(initial, rounds);
    hide WellFormed, Working;
  }

  /** Every list handed to the provider in the tool phase is the initial list
      followed by well-formed rounds, whatever the initial list. In its Anthropic
      form the turns of those rounds follow the turns of the initial list, each
      turn with calls answered at once; so all calls are if those of the initial
      list are. */
  lemma {:induction false} EveryTranscriptWellFormed(builts: seq<Built>, messages: seq<Message>, log: Rounds)
    requires AskedInTurn(builts, messages, log.rounds)
    ensures forall i | 0 <= i < |builts| ::
              && Continues(builts[i].messages, messages)
              && Grouped(builts[i].messages) == Grouped(messages) + RoundsTurns(log.rounds[..i])
              && AnsweredAtOnce(RoundsTurns(log.rounds[..i]))
              && (AnsweredAtOnce(Grouped(builts[i].messages)) <==> AnsweredAtOnce(Grouped(messages)))
  {
    hide Continues, AnsweredAtOnce, Grouped, Working, RoundsTurns;
    forall i | 0 <= i < |builts|
      ensures Continues(builts[i].messages, messages)
      ensures Grouped(builts[i].messages) == Grouped(messages) + RoundsTurns(log.rounds[..i])
      ensures AnsweredAtOnce(RoundsTurns(log.rounds[..i]))
      ensures AnsweredAtOnce(Grouped(builts[i].messages)) <==> AnsweredAtOnce(Grouped(messages))
    {
      RoundsContinue(messages, log.rounds[..i]);
      RoundsGrouped(messages, log.rounds[..i]);
      RoundsAnsweredAtOnce(messages, log.rounds[..i]);
    }
  }

  /** The first list is the caller's; each later one is the one before it and
      what its round had to tell: the turn that was read, and what came of every
      tool it asked for. */
  lemma {:induction false} TranscriptsGrow(builts: seq<Built>, messages: seq<Message>, log: Rounds, i: nat)
    requires log.Ran() && AskedInTurn(builts, messages, log.rounds)
    ensures builts != [] ==> builts[0].messages == messages
    ensures i + 1 < |builts| ==>
              && builts[i].messages <= builts[i + 1].messages && log.readings[i].calls != []
              && TellsRound(builts[i + 1].messages[|builts[i].messages|..], log.readings[i], log.uses[i])
  {
    hide RoundMessages, CallRan, ShowsOutcome;
    if i + 1 < |builts| {
      assert RoundRan(log.rounds[i], log.readings[i], log.uses[i]);
      assert log.rounds[..i + 1] == log.rounds[..i] + [log.rounds[i]];
      hide Working;
      WorkingPush(messages, log.rounds[..i], log.rounds[i]);
      RoundTold(log.rounds[i], log.readings[i], log.uses[i]);
      assert builts[i + 1].messages[|builts[i].messages|..] == RoundMessages(log.rounds[i]);
    }
  }

  /** `flat` tells what `ms` tells, message by message and in order: a tool's
      result as a user's text that names the tool, a request for tools as its
      text, or as a remark if it has none, and everything else as it is. */
  ghost predicate TellsTheSame(flat: seq<Message>, ms: seq<Message>) {
    && |flat| == |ms|
    && forall i | 0 <= i < |ms| :: flat[i] ==
         match ms[i].role
         case Tool => Message(User, "[tool " + ms[i].toolName + " result] " + ms[i].content, "", "", [], "", "", false)
         case Assistant =>
           if ms[i].toolCalls == [] then ms[i]
           else Message(Assistant, if ms[i].content == "" then "(requested tools)" else ms[i].content,
                        "", "", [], "", "", false)
         case _ => ms[i]
  }

  /** The final requests see the whole transcript, flattened: message by message
      it tells the same, without the tool protocol. */
  lemma {:induction false} FinalTranscriptFlat(builts: seq<Built>, messages: seq<Message>, log: Rounds)
    requires log.Ran() && AllAsk(builts, Flattened(log.After(messages)))
    ensures forall i | 0 <= i < |builts| ::
              && builts[i].messages == Flattened(log.After(messages))
              && Protocolless(builts[i].messages) && TellsTheSame(builts[i].messages, log.After(messages))
  {
    var ms := log.After(messages);
    FlatteningKeeps(ms);
    FlatteningTells(ms);
    hide Flattened, Protocolless, TellsTheSame, Rounds.After;
  }

  lemma {:induction false} FlatteningTells(ms: seq<Message>)
    ensures TellsTheSame(Flattened(ms), ms)
  {
    forall i | 0 <= i < |ms| ensures Flattened(ms)[i] == Flat(ms[i]) {
    }
  }
}
