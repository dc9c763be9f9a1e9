/** The editor's node endpoints: add a page, read a page, save a page. */
module Nodes {
  import opened Types
  import opened Store

  /** The JSON body of a save request. `storyText` and `choices` are read by
      key, so their absence raises; the other two are read with a default of
      `None`. */
  datatype NodePayload = NodePayload(
    storyText: Option<string>,
    choices: Option<seq<Choice>>,
    backgroundImageUrl: Option<string>,
    nextNodeId: Option<Id>)

  /** Adds a blank page under the given story identifier. Neither the story's
      existence nor the caller's authorship is checked. */
  function CreateNode(st: State, caller: Option<Id>, storyId: Id): (r: Step<Id>)
    requires IdsBelowCounter(st)
    ensures caller.None? ==> r == Step(st, Err(Unauthorized))
    ensures caller.Some? ==>
      && r.out.Ok?
      && var n := r.out.value;
      && n !in st.nodes && n !in st.stories
      && r.st.nodes.Keys == st.nodes.Keys + {n}
      && r.st.nodes[n] == Node(storyId, NewPageText, Some(""), [], None)
      && (forall m :: m in st.nodes ==> r.st.nodes[m] == st.nodes[m])
      && r.st.users == st.users
      && r.st.stories == st.stories
      && IdsBelowCounter(r.st)
  {
    match caller
    case None => Step(st, Err(Unauthorized))
    case Some(_) =>
      var nodeId := st.nextId;
      var node := Node(storyId, NewPageText, Some(""), [], None);
      Step(st.(nodes := st.nodes[nodeId := node], nextId := st.nextId + 1), Ok(nodeId))
  }

  /** Reads one page for the editor. */
  function GetNode(st: State, caller: Option<Id>, nodeId: Id): (r: Result<Node, Error>)
    ensures caller.None? ==> r == Err(Unauthorized)
    ensures caller.Some? && nodeId !in st.nodes ==> r == Err(NotFound)
    ensures r.Ok? <==> caller.Some? && nodeId in st.nodes
    ensures r.Ok? ==> r.value == st.nodes[nodeId]
  {
    if caller.None? then Err(Unauthorized)
    else if nodeId !in st.nodes then Err(NotFound)
    else Ok(st.nodes[nodeId])
  }

  /** Overwrites the four editable fields of a page. A missing required field
      fails before any write; a missing page is a write that matches nothing,
      which still answers success. */
  function SaveNode(st: State, caller: Option<Id>, nodeId: Id, p: NodePayload): (r: Step<()>)
    ensures caller.None? ==> r == Step(st, Err(Unauthorized))
    ensures caller.Some? && (p.storyText.None? || p.choices.None?) ==> r == Step(st, Err(InternalError))
    ensures caller.Some? && p.storyText.Some? && p.choices.Some? ==>
      && r.out == Ok(())
      && r.st.users == st.users
      && r.st.stories == st.stories
      && r.st.nextId == st.nextId
      && r.st.nodes.Keys == st.nodes.Keys
      && (forall m :: m in st.nodes && m != nodeId ==> r.st.nodes[m] == st.nodes[m])
    ensures caller.Some? && p.storyText.Some? && p.choices.Some? && nodeId in st.nodes ==>
      var after := r.st.nodes[nodeId];
      && after.storyId == st.nodes[nodeId].storyId
      && after.storyText == p.storyText.value
      && after.choices == p.choices.value
      && after.backgroundImageUrl == p.backgroundImageUrl
      && after.nextNodeId == p.nextNodeId
  {
    match caller
    case None => Step(st, Err(Unauthorized))
    case Some(_) =>
      if p.storyText.None? || p.choices.None? then
        Step(st, Err(InternalError))
      else if nodeId !in st.nodes then
        Step(st, Ok(()))
      else
        var node := st.nodes[nodeId].(
          storyText := p.storyText.value,
          choices := p.choices.value,
          backgroundImageUrl := p.backgroundImageUrl,
          nextNodeId := p.nextNodeId);
        Step(st.(nodes := st.nodes[nodeId := node]), Ok(()))
  }

  /** A page saved and then read back shows exactly what was saved, still
      attached to its original story. */
  lemma SaveThenGet(st: State, u: Id, nodeId: Id, text: string, choices: seq<Choice>,
                    background: Option<string>, next: Option<Id>)
    requires nodeId in st.nodes
    ensures var st' := SaveNode(st, Some(u), nodeId, NodePayload(Some(text), Some(choices), background, next)).st;
      GetNode(st', Some(u), nodeId) == Ok(Node(st.nodes[nodeId].storyId, text, background, choices, next))
  {
  }

  /** A page just added reads back as a blank page of the given story. */
  lemma CreateThenGet(st: State, u: Id, storyId: Id)
    requires IdsBelowCounter(st)
    ensures var r := CreateNode(st, Some(u), storyId);
      GetNode(r.st, Some(u), r.out.value) == Ok(Node(storyId, NewPageText, Some(""), [], None))
  {
  }

  /** Adding, reading and saving pages keep every invariant of the store; in
      particular no page ever moves to another story. */
  lemma NodeOpsPreserveValid(st: State, caller: Option<Id>, storyId: Id, nodeId: Id, p: NodePayload)
    requires Valid(st)
    ensures Valid(CreateNode(st, caller, storyId).st)
    ensures Valid(SaveNode(st, caller, nodeId, p).st)
  {
  }
}
