/** The three endpoints that call the generative-text gateway, each with its
    own policy for a gateway failure, and the parser for suggested choices.
    The gateway itself (an outbound HTTP request) is a parameter: a function
    from the ordered prompt fragments to the completion text or an error
    message. */
module Ai {
  import opened Types
  import opened Store
  import opened Text

  type Gateway = seq<string> -> Result<string, string>

  /** The closing line served when no completion can be had. */
  const FallbackEnding: string := "Every story has an end, and this is yours. Thank you for the journey."

  /** The characters `lstrip` removes from the front of a suggested choice. */
  predicate IsBulletMark(c: char) {
    c == '-' || c == '*' || c == ' '
  }

  /** How a Python f-string renders an optional request field. */
  function Rendered(field: Option<string>): string {
    match field
    case None => "None"
    case Some(s) => s
  }

  function EndingPrompt(title: string): seq<string> {
    ["A reader finished a story titled \"" + title + "\". Write a short, satisfying, concluding thought."]
  }

  function EnrichPrompt(idea: string): seq<string> {
    ["You are a creative co-author...", "Scene Idea: " + idea]
  }

  /** The fixed instructions between the title line and the scene line. */
  const SuggestInstructions: seq<string> := [
    "Based on the following scene, suggest three creative, distinct, and compelling choices for the player to make.",
    "The choices should move the plot forward in interesting ways. Do not use generic actions like 'look around' or 'wait'.",
    "Return the response as a simple list of strings, separated by newlines. Do not add any other text like titles or bullet points."
  ]

  function SuggestPrompt(storyTitle: Option<string>, description: string): seq<string> {
    ["You are a game designer for an interactive story titled '" + Rendered(storyTitle) + "'."]
    + SuggestInstructions
    + ["Scene: " + description]
  }

  /** The error payload of a failed gateway call. */
  function ServiceError(message: string): Error {
    AIServiceError("AI service error: " + message)
  }

  /** Generates a closing line for a finished story. The story is looked up
      before the gateway call and outside its error handling, so an unknown
      story escapes as an internal error; once the story is found, the
      endpoint never reports an error. */
  function GenerateEnding(st: State, storyId: Id, gateway: Gateway): (r: Result<string, Error>)
    ensures storyId !in st.stories ==> r == Err(InternalError)
    ensures storyId in st.stories ==> r.Ok?
    ensures storyId in st.stories && gateway(EndingPrompt(st.stories[storyId].title)).Err? ==>
      r.value == FallbackEnding
    ensures storyId in st.stories && gateway(EndingPrompt(st.stories[storyId].title)).Ok? ==>
      r.value == Strip(gateway(EndingPrompt(st.stories[storyId].title)).value)
  {
    if storyId !in st.stories then Err(InternalError)
    else
      match gateway(EndingPrompt(st.stories[storyId].title))
      case Ok(text) => Ok(Strip(text))
      case Err(_) => Ok(FallbackEnding)
  }

  /** Expands a scene idea into prose; a gateway failure is reported. */
  function Enrich(caller: Option<Id>, idea: Option<string>, gateway: Gateway): (r: Result<string, Error>)
    ensures caller.None? ==> r == Err(Unauthorized)
    ensures caller.Some? && (idea.None? || idea.value == "") ==> r == Err(ValidationError)
    ensures caller.Some? && idea.Some? && idea.value != "" ==>
      match gateway(EnrichPrompt(idea.value))
      case Ok(text) => r == Ok(Strip(text))
      case Err(e) => r == Err(ServiceError(e))
  {
    if caller.None? then Err(Unauthorized)
    else if idea.None? || idea.value == "" then Err(ValidationError)
    else
      match gateway(EnrichPrompt(idea.value))
      case Ok(text) => Ok(Strip(text))
      case Err(e) => Err(ServiceError(e))
  }

  /** One suggested choice: the line stripped, then its leading bullet
      characters removed. Neither a bullet character at the front nor
      whitespace at the end survives. */
  function CleanChoice(line: string): (r: string)
    ensures |r| > 0 ==> !IsBulletMark(r[0]) && !IsSpace(r[|r| - 1])
    ensures |r| <= |Strip(line)| && r == Strip(line)[|Strip(line)| - |r|..]
    ensures forall i :: 0 <= i < |Strip(line)| - |r| ==> IsBulletMark(Strip(line)[i])
    ensures forall c :: c in r ==> c in line
  {
    TrimLeft(Strip(line), IsBulletMark)
  }

  /** Cleans every line, keeping their order and number. */
  function CleanAll(lines: seq<string>): (r: seq<string>)
    ensures |r| == |lines|
    ensures forall i :: 0 <= i < |lines| ==> r[i] == CleanChoice(lines[i])
  {
    if |lines| == 0 then [] else [CleanChoice(lines[0])] + CleanAll(lines[1..])
  }

  /** Parses the gateway's reply: the trimmed reply is split on newlines and
      every segment, blank ones included, is cleaned. */
  function ParseChoiceLines(response: string): (r: seq<string>)
    ensures |r| == multiset(Strip(response))['\n'] + 1
    ensures forall i :: 0 <= i < |r| && |r[i]| > 0 ==> !IsBulletMark(r[i][0]) && !IsSpace(r[i][|r[i]| - 1])
    ensures forall i :: 0 <= i < |r| ==> '\n' !in r[i]
  {
    CleanAll(Split(Strip(response), '\n'))
  }

  /** The parsed choices correspond one to one with the newline-separated
      segments of the trimmed reply, and those segments rebuild it. */
  lemma ParseChoiceLinesSegments(response: string)
    ensures var lines := Split(Strip(response), '\n');
      && Join(lines, '\n') == Strip(response)
      && |ParseChoiceLines(response)| == |lines|
      && forall i :: 0 <= i < |lines| ==> ParseChoiceLines(response)[i] == CleanChoice(lines[i])
  {
    JoinSplit(Strip(response), '\n');
  }

  /** Blank segments are not filtered out: a segment of the trimmed reply
      that is all whitespace yields an empty choice at the same position. */
  lemma BlankLinesKept(response: string, i: nat)
    requires i < |Split(Strip(response), '\n')|
    requires forall k :: 0 <= k < |Split(Strip(response), '\n')[i]| ==> IsSpace(Split(Strip(response), '\n')[i][k])
    ensures i < |ParseChoiceLines(response)| && ParseChoiceLines(response)[i] == ""
  {
  }

  /** A choice as the gateway is asked to write it: non-empty, without a
      newline, not starting with a bullet character and with no whitespace
      at either end. */
  predicate CleanLine(c: string) {
    && |c| > 0
    && '\n' !in c
    && !IsSpace(c[0]) && !IsBulletMark(c[0])
    && !IsSpace(c[|c| - 1])
  }

  /** A clean choice is left as it is. */
  lemma CleanLineUnchanged(c: string)
    requires CleanLine(c)
    ensures CleanChoice(c) == c
  {
    StripKeeps(c);
    assert TrimLeft(c, IsBulletMark) == c;
  }

  /** Cleaning lines that are already clean changes none of them. */
  lemma CleanAllUnchanged(lines: seq<string>)
    requires forall k :: 0 <= k < |lines| ==> CleanLine(lines[k])
    ensures CleanAll(lines) == lines
  {
    forall k | 0 <= k < |lines| ensures CleanAll(lines)[k] == lines[k] {
      CleanLineUnchanged(lines[k]);
    }
  }

  /** Clean choices joined by newlines need no stripping. */
  lemma JoinedChoicesStripped(choices: seq<string>)
    requires |choices| >= 1
    requires forall k :: 0 <= k < |choices| ==> CleanLine(choices[k])
    ensures Strip(Join(choices, '\n')) == Join(choices, '\n')
  {
    JoinEnds(choices, '\n');
    StripKeeps(Join(choices, '\n'));
  }

  /** A reply in the requested format, clean choices one per line, parses
      back to exactly those choices. */
  lemma ParseJoinedChoices(choices: seq<string>)
    requires |choices| >= 1
    requires forall k :: 0 <= k < |choices| ==> CleanLine(choices[k])
    ensures ParseChoiceLines(Join(choices, '\n')) == choices
  {
    JoinedChoicesStripped(choices);
    SplitJoin(choices, '\n');
    CleanAllUnchanged(choices);
  }

  /** Suggests choices for a scene; a gateway failure is reported. */
  function SuggestChoices(caller: Option<Id>, description: Option<string>, storyTitle: Option<string>,
                          gateway: Gateway): (r: Result<seq<string>, Error>)
    ensures caller.None? ==> r == Err(Unauthorized)
    ensures caller.Some? && (description.None? || description.value == "") ==> r == Err(ValidationError)
    ensures caller.Some? && description.Some? && description.value != "" ==>
      match gateway(SuggestPrompt(storyTitle, description.value))
      case Ok(text) => r == Ok(ParseChoiceLines(text))
      case Err(e) => r == Err(ServiceError(e))
  {
    if caller.None? then Err(Unauthorized)
    else if description.None? || description.value == "" then Err(ValidationError)
    else
      var reply := gateway(SuggestPrompt(storyTitle, description.value));
      match reply
      case Ok(text) => Ok(ParseChoiceLines(text))
      case Err(e) => Err(ServiceError(e))
  }
}
