/** The one deterministic helper of the calendar assistant
    (app_agents/calendar_agent.py): folding the earlier turns of a chat into
    the text handed to the language model. */
module CalendarAgent {
  import opened Wrappers
  import opened Text

  /** One earlier turn; either key may be absent from the turn's dict. */
  datatype Turn = Turn(role: Option<string>, content: Option<string>)

  const Header: string := "Previous conversation:"
  const Closing: string := "Respond to the latest user request."

  /** `f"{role.capitalize()}: {content}"` with role "user" and content ""
      when the key is absent. */
  function TurnLine(t: Turn): (line: string)
    ensures |line| == |t.role.GetOr("user")| + 2 + |t.content.GetOr("")|
    ensures t.role.None? ==> line[..6] == "User: "
  {
    Capitalize(t.role.GetOr("user")) + ": " + t.content.GetOr("")
  }

  /** The line of each turn, in order. */
  function TurnLines(history: seq<Turn>): (lines: seq<string>)
    ensures |lines| == |history|
    ensures forall i :: 0 <= i < |history| ==> lines[i] == TurnLine(history[i])
  {
    seq(|history|, i requires 0 <= i < |history| => TurnLine(history[i]))
  }

  /** The lines of the prompt: a header, one line per turn, the new message
      as a user line and the closing instruction. */
  function HistoryLines(history: seq<Turn>, userMessage: string): (lines: seq<string>)
    ensures |lines| == |history| + 3
    ensures lines[0] == Header && lines[|lines| - 1] == Closing
    ensures lines[|lines| - 2] == "User: " + userMessage
    ensures forall i :: 0 <= i < |history| ==> lines[i + 1] == TurnLine(history[i])
  {
    var turns := TurnLines(history);
    var lines := [Header] + turns + ["User: " + userMessage, Closing];
    assert forall i :: 0 <= i < |history| ==> lines[i + 1] == turns[i];
    lines
  }

  /** What `_format_with_history` returns: the message alone when there is
      no history, otherwise the lines joined by newlines. */
  function FormatSpec(history: seq<Turn>, userMessage: string): (text: string)
    ensures history == [] ==> text == userMessage
  {
    if history == [] then userMessage else Join(HistoryLines(history, userMessage), "\n")
  }

  /** `_format_with_history`. */
  method FormatWithHistory(history: seq<Turn>, userMessage: string) returns (text: string)
    ensures text == FormatSpec(history, userMessage)
  {
    if history == [] {
      return userMessage;
    }
    var lines := [Header];
    for i := 0 to |history|
      invariant lines == [Header] + TurnLines(history[..i])
    {
      TurnLinesStep(history, i);
      lines := lines + [TurnLine(history[i])];
    }
    assert history[..|history|] == history;
    lines := lines + ["User: " + userMessage];
    lines := lines + [Closing];
    HistoryLinesParts(history, userMessage, lines);
    text := Join(lines, "\n");
  }

  /** Taking one more turn adds that turn's line at the end. */
  lemma TurnLinesStep(history: seq<Turn>, i: nat)
    requires i < |history|
    ensures TurnLines(history[..i + 1]) == TurnLines(history[..i]) + [TurnLine(history[i])]
  {
    var a := TurnLines(history[..i + 1]);
    var b := TurnLines(history[..i]) + [TurnLine(history[i])];
    assert |a| == |b|;
    forall k | 0 <= k < |a| ensures a[k] == b[k] {
      assert a[k] == TurnLine(history[..i + 1][k]) == TurnLine(history[k]);
      if k < i {
        assert b[k] == TurnLines(history[..i])[k] == TurnLine(history[..i][k]);
      }
    }
  }

  /** The lines the loop builds are the prompt's lines. */
  lemma HistoryLinesParts(history: seq<Turn>, userMessage: string, lines: seq<string>)
    requires lines == [Header] + TurnLines(history[..|history|]) + ["User: " + userMessage] + [Closing]
    ensures lines == HistoryLines(history, userMessage)
  {
    assert history[..|history|] == history;
  }

  /** `_format_with_history(history or [], user_message)`: a missing history
      is an empty one. */
  function AskInput(history: Option<seq<Turn>>, userMessage: string): (text: string)
    ensures history.None? ==> text == userMessage
    ensures history.Some? ==> text == FormatSpec(history.value, userMessage)
  {
    FormatSpec(history.GetOr([]), userMessage)
  }

  /** Capitalizing never creates a newline. */
  lemma CapitalizeKeepsNewlines(s: string)
    requires '\n' !in s
    ensures '\n' !in Capitalize(s)
  {
    var r := Capitalize(s);
    forall k | 0 <= k < |r| ensures r[k] != '\n' {
      if k > 0 {
        assert r[k] == Lower(s[1..])[k - 1] == LowerChar(s[k]);
      }
    }
  }

  lemma TurnLineWithoutNewlines(t: Turn)
    requires '\n' !in t.role.GetOr("user") && '\n' !in t.content.GetOr("")
    ensures '\n' !in TurnLine(t)
  {
    CapitalizeKeepsNewlines(t.role.GetOr("user"));
  }

  /** No line of the prompt holds a newline when no role, content or
      message does. */
  lemma LinesWithoutNewlines(history: seq<Turn>, userMessage: string)
    requires '\n' !in userMessage
    requires forall i :: 0 <= i < |history| ==>
      '\n' !in history[i].role.GetOr("user") && '\n' !in history[i].content.GetOr("")
    ensures forall k :: 0 <= k < |history| + 3 ==> '\n' !in HistoryLines(history, userMessage)[k]
  {
    var lines := HistoryLines(history, userMessage);
    var user := "User: " + userMessage;
    assert '\n' !in Header && '\n' !in Closing && '\n' !in "User: ";
    assert '\n' !in user;
    forall k | 0 <= k < |lines| ensures '\n' !in lines[k] {
      if 1 <= k <= |history| {
        TurnLineWithoutNewlines(history[k - 1]);
      } else if k == |history| + 1 {
        assert lines[k] == user;
      }
    }
  }

  /** When no role, content or message holds a newline, splitting the prompt
      at newlines gives back exactly its lines: header, one line per turn,
      the user line and the closing instruction. */
  lemma FormatLinesRoundTrip(history: seq<Turn>, userMessage: string)
    requires history != []
    requires '\n' !in userMessage
    requires forall i :: 0 <= i < |history| ==>
      '\n' !in history[i].role.GetOr("user") && '\n' !in history[i].content.GetOr("")
    ensures Split(FormatSpec(history, userMessage), '\n') == HistoryLines(history, userMessage)
  {
    LinesWithoutNewlines(history, userMessage);
    SplitJoin(HistoryLines(history, userMessage), '\n');
  }
}
