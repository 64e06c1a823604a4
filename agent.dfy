/**
 * The agent front end: `chat` turns a user's line into a farewell or an
 * instruction for the agent, and `run_agent` passes the instruction through
 * the rate-limit gate to the model provider and turns whatever comes back
 * into a reply string. The provider is a function from the instruction to
 * an outcome; the model does not look inside it.
 */
module TodoAgent {
  import opened Wrappers
  import opened Text
  import opened RateLimiter

  /** What a run of the agent produced, as `run_agent` looks at it. */
  datatype Outcome =
    | Finished(output: Option<string>)  // a result carrying `final_output` (None for Python's None)
    | NoResult                          // no result, or one without `final_output`
    | Failed(error: string)             // an exception, by its text

  const NoOutputReply := "Task completed but no output was returned"
  const NoResponseReply := "No response received from the agent"
  const ErrorPrefix := "Error processing request: "

  /** The reply `run_agent` gives for an outcome: always a string. */
  function RunAgentReply(outcome: Outcome): (reply: string)
    ensures outcome.Finished? && outcome.output.Some? ==> reply == outcome.output.value
    ensures outcome == Finished(None) ==> reply == NoOutputReply
    ensures outcome == NoResult ==> reply == NoResponseReply
    ensures outcome.Failed? ==> reply == ErrorPrefix + outcome.error
  {
    match outcome
    case Finished(Some(s)) => s
    case Finished(None) => NoOutputReply
    case NoResult => NoResponseReply
    case Failed(e) => ErrorPrefix + e
  }

  /**
   * Apart from a final output the provider wrote itself, the reply identifies
   * the outcome: the two fallbacks and every error text give different replies.
   */
  lemma {:induction false} FallbackRepliesIdentifyOutcome(a: Outcome, b: Outcome)
    requires !(a.Finished? && a.output.Some?) && !(b.Finished? && b.output.Some?)
    requires RunAgentReply(a) == RunAgentReply(b)
    ensures a == b
  {
    ReplyHead(a);
    ReplyHead(b);
    if a.Failed? && b.Failed? {
      var r := RunAgentReply(a);
      assert a.error == r[|ErrorPrefix|..] == b.error;
    }
  }

  /** An error reply starts with 'E'; neither fallback does. */
  lemma {:induction false} ReplyHead(o: Outcome)
    requires !(o.Finished? && o.output.Some?)
    ensures |RunAgentReply(o)| > 0 && (RunAgentReply(o)[0] == 'E' <==> o.Failed?)
  {
    if o.Failed? {
      assert RunAgentReply(o)[0] == ErrorPrefix[0];
    }
  }

  /** A final output the provider wrote can read exactly like a fallback. */
  lemma ProviderOutputCanMimicFallback()
    ensures RunAgentReply(Finished(Some(NoResponseReply))) == RunAgentReply(NoResult)
    ensures Finished(Some(NoResponseReply)) != NoResult
  {
  }

  const ExitWord := "exit"
  const ShowWord := "show"
  const FarewellReply := "Goodbye! Thank you for using the Todo List Manager."
  const ShowInstruction := "show - todo display all todos in a structured table format"

  /** What `chat` does with a line: say goodbye, or send an instruction to the agent. */
  datatype Command = Farewell | Dispatch(instruction: string)

  /**
   * Any capitalisation of "exit" ends the conversation, any capitalisation of
   * "show" becomes the table-display instruction, and every other line goes
   * to the agent verbatim.
   */
  function Route(line: string): (c: Command)
    ensures c == Farewell <==> IsCapitalisationOf(line, ExitWord)
    ensures c == Dispatch(ShowInstruction) <== IsCapitalisationOf(line, ShowWord)
    ensures c == Dispatch(line) <== !IsCapitalisationOf(line, ExitWord) && !IsCapitalisationOf(line, ShowWord)
  {
    LowerMatchesCapitalisation(line, ExitWord);
    LowerMatchesCapitalisation(line, ShowWord);
    if Lower(line) == ExitWord then Farewell
    else if Lower(line) == ShowWord then Dispatch(ShowInstruction)
    else Dispatch(line)
  }

  /** The show instruction is not itself a command, so routing it again sends it on unchanged. */
  lemma RouteSettles(line: string)
    ensures Route(line).Dispatch? ==> Route(Route(line).instruction) == Route(line)
  {
    var c := Route(line);
    if c.Dispatch? && c.instruction == ShowInstruction {
      assert !IsCapitalisationOf(ShowInstruction, ExitWord) && !IsCapitalisationOf(ShowInstruction, ShowWord);
    }
  }

  /**
   * `run_agent`: the gate first, then one run of the agent at the time the
   * gate releases the call; `wait` is how long the gate slept.
   */
  method RunAgent(gate: Limiter, instruction: string, now: int, provider: string -> Outcome)
      returns (reply: string, wait: int)
    modifies gate
    ensures wait == Wait(old(gate.requestTimes), now)
    ensures gate.requestTimes == Admitted(old(gate.requestTimes), now)
    ensures reply == RunAgentReply(provider(instruction))
  {
    wait := gate.WaitForRateLimit(now);
    reply := RunAgentReply(provider(instruction));
  }

  /**
   * `chat`: a farewell leaves the gate untouched and never reaches the
   * provider; anything else is routed and run through `RunAgent`.
   */
  method Chat(gate: Limiter, line: string, now: int, provider: string -> Outcome)
      returns (reply: string, wait: int)
    modifies gate
    ensures Route(line) == Farewell ==>
      reply == FarewellReply && wait == 0 && gate.requestTimes == old(gate.requestTimes)
    ensures Route(line).Dispatch? ==>
      && reply == RunAgentReply(provider(Route(line).instruction))
      && wait == Wait(old(gate.requestTimes), now)
      && gate.requestTimes == Admitted(old(gate.requestTimes), now)
  {
    match Route(line)
    case Farewell =>
      reply, wait := FarewellReply, 0;
    case Dispatch(instruction) =>
      reply, wait := RunAgent(gate, instruction, now, provider);
  }
}
