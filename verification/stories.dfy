/** Story creation, deletion and the two owner-only edits of a story. */
module Stories {
  import opened Types
  import opened Store

  /** Creating a story inserts the story with no start node, inserts its first
      page, then points the story at that page; the three writes are one
      transition here. */
  function CreateStory(st: State, caller: Option<Id>, title: string, description: string): (r: Step<Id>)
    requires IdsBelowCounter(st)
    ensures caller.None? ==> r == Step(st, Err(Unauthorized))
    ensures caller.Some? ==>
      && r.out.Ok?
      && var s := r.out.value;
      && s !in st.stories && s !in st.nodes
      && r.st.stories.Keys == st.stories.Keys + {s}
      && r.st.stories[s].title == title
      && r.st.stories[s].description == description
      && r.st.stories[s].authorId == caller.value
      && r.st.stories[s].posterImageUrl == Some("")
      && r.st.stories[s].startNodeId.Some?
      && var n := r.st.stories[s].startNodeId.value;
      && n !in st.nodes && n != s
      && r.st.nodes.Keys == st.nodes.Keys + {n}
      && r.st.nodes[n] == Node(s, FirstPageText, Some(""), [], None)
    ensures caller.Some? ==>
      && r.st.users == st.users
      && (forall s :: s in st.stories ==> r.st.stories[s] == st.stories[s])
      && (forall n :: n in st.nodes ==> r.st.nodes[n] == st.nodes[n])
      && IdsBelowCounter(r.st)
  {
    match caller
    case None => Step(st, Err(Unauthorized))
    case Some(u) =>
      var storyId := st.nextId;
      var st1 := st.(stories := st.stories[storyId := Story(title, description, u, None, Some(""))],
                     nextId := st.nextId + 1);
      var nodeId := st1.nextId;
      var st2 := st1.(nodes := st1.nodes[nodeId := Node(storyId, FirstPageText, Some(""), [], None)],
                      nextId := st1.nextId + 1);
      var st3 := st2.(stories := st2.stories[storyId := st2.stories[storyId].(startNodeId := Some(nodeId))]);
      Step(st3, Ok(storyId))
  }

  /** Deleting a story the caller owns removes it and cascades to its pages;
      any other request leaves the database alone. */
  function DeleteStory(st: State, caller: Option<Id>, storyId: Id): (r: Step<()>)
    ensures caller.None? ==> r == Step(st, Err(Unauthorized))
    ensures caller.Some? && !Owns(st, caller.value, storyId) ==> r == Step(st, Err(NotFound))
    ensures caller.Some? && Owns(st, caller.value, storyId) ==>
      && r.out.Ok?
      && r.st.users == st.users
      && r.st.nextId == st.nextId
      && r.st.stories.Keys == st.stories.Keys - {storyId}
      && (forall s :: s in r.st.stories ==> r.st.stories[s] == st.stories[s])
      && NodesOf(r.st, storyId) == {}
      && r.st.nodes.Keys == st.nodes.Keys - NodesOf(st, storyId)
      && (forall n :: n in r.st.nodes ==> n in st.nodes && r.st.nodes[n] == st.nodes[n])
      && (forall n :: n in st.nodes && st.nodes[n].storyId != storyId ==> n in r.st.nodes)
  {
    match caller
    case None => Step(st, Err(Unauthorized))
    case Some(u) =>
      if Owns(st, u, storyId) then
        var remaining := map n | n in st.nodes && st.nodes[n].storyId != storyId :: st.nodes[n];
        Step(st.(stories := st.stories - {storyId}, nodes := remaining), Ok(()))
      else
        Step(st, Err(NotFound))
  }

  /** The details update is filtered on both the story and its author; when
      the filter matches nothing the handler still answers success. */
  function UpdateDetails(st: State, caller: Option<Id>, storyId: Id, title: string, description: string): (r: Step<()>)
    ensures caller.None? ==> r == Step(st, Err(Unauthorized))
    ensures caller.Some? ==> r.out == Ok(()) && OnlyStoryChanged(st, r.st, storyId)
    ensures caller.Some? && Owns(st, caller.value, storyId) ==>
      var before, after := st.stories[storyId], r.st.stories[storyId];
      && after.title == title
      && after.description == description
      && after.authorId == before.authorId
      && after.startNodeId == before.startNodeId
      && after.posterImageUrl == before.posterImageUrl
    ensures caller.Some? && !Owns(st, caller.value, storyId) ==> r.st == st
  {
    match caller
    case None => Step(st, Err(Unauthorized))
    case Some(u) =>
      if Owns(st, u, storyId) then
        var story := st.stories[storyId].(title := title, description := description);
        Step(st.(stories := st.stories[storyId := story]), Ok(()))
      else
        Step(st, Ok(()))
  }

  /** Setting the poster follows the same owner filter as the details update. */
  function SetPoster(st: State, caller: Option<Id>, storyId: Id, posterImageUrl: Option<string>): (r: Step<()>)
    ensures caller.None? ==> r == Step(st, Err(Unauthorized))
    ensures caller.Some? ==> r.out == Ok(()) && OnlyStoryChanged(st, r.st, storyId)
    ensures caller.Some? && Owns(st, caller.value, storyId) ==>
      var before, after := st.stories[storyId], r.st.stories[storyId];
      && after.posterImageUrl == posterImageUrl
      && after.title == before.title
      && after.description == before.description
      && after.authorId == before.authorId
      && after.startNodeId == before.startNodeId
    ensures caller.Some? && !Owns(st, caller.value, storyId) ==> r.st == st
  {
    match caller
    case None => Step(st, Err(Unauthorized))
    case Some(u) =>
      if Owns(st, u, storyId) then
        var story := st.stories[storyId].(posterImageUrl := posterImageUrl);
        Step(st.(stories := st.stories[storyId := story]), Ok(()))
      else
        Step(st, Ok(()))
  }

  /** A created story satisfies the linkage invariant, and so does every
      state reached from a valid one. */
  lemma CreateStoryPreservesValid(st: State, caller: Option<Id>, title: string, description: string)
    requires Valid(st)
    ensures Valid(CreateStory(st, caller, title, description).st)
  {
  }

  /** Deletion never strands another story without its start node. */
  lemma DeleteStoryPreservesValid(st: State, caller: Option<Id>, storyId: Id)
    requires Valid(st)
    ensures Valid(DeleteStory(st, caller, storyId).st)
  {
  }

  /** The owner-only edits touch neither pages nor start nodes, so every
      invariant survives them. */
  lemma EditsPreserveValid(st: State, caller: Option<Id>, storyId: Id, title: string, description: string, poster: Option<string>)
    requires Valid(st)
    ensures Valid(UpdateDetails(st, caller, storyId, title, description).st)
    ensures Valid(SetPoster(st, caller, storyId, poster).st)
  {
  }

  /** Creating a story adds exactly one story and exactly one page. */
  lemma CreateStoryAddsOneOfEach(st: State, u: Id, title: string, description: string)
    requires IdsBelowCounter(st)
    ensures var r := CreateStory(st, Some(u), title, description);
      |r.st.stories| == |st.stories| + 1 && |r.st.nodes| == |st.nodes| + 1
  {
  }

  /** Deleting a story right after creating it gives back the collections as
      they were, provided no page already names the identifier the new story
      receives. */
  lemma CreateThenDeleteRestores(st: State, u: Id, title: string, description: string)
    requires IdsBelowCounter(st) && NodesOf(st, st.nextId) == {}
    ensures var created := CreateStory(st, Some(u), title, description);
      var deleted := DeleteStory(created.st, Some(u), created.out.value);
      && deleted.out == Ok(())
      && deleted.st.users == st.users
      && deleted.st.stories == st.stories
      && deleted.st.nodes == st.nodes
  {
  }
}
