/** The reading path: viewing a page, which records a started story in the
    viewer's played history. */
module Player {
  import opened Types
  import opened Store

  /** Set-style insertion into a history: append the story unless present. */
  function AddToSet(history: seq<Id>, storyId: Id): (r: seq<Id>)
    ensures forall x :: x in r <==> x in history || x == storyId
    ensures |history| <= |r| <= |history| + 1 && r[..|history|] == history
    ensures NoDuplicates(history) ==> NoDuplicates(r)
  {
    if storyId in history then history else history + [storyId]
  }

  /** Inserting the same story twice gives the history of inserting it once. */
  lemma AddToSetIdempotent(history: seq<Id>, storyId: Id)
    ensures AddToSet(AddToSet(history, storyId), storyId) == AddToSet(history, storyId)
  {
  }

  /** Whether viewing the page writes to the viewer's history: the viewer is
      logged in, is a stored user, and the page is its story's start node. */
  predicate RecordsHistory(st: State, viewer: Option<Id>, nodeId: Id)
    requires nodeId in st.nodes
  {
    viewer.Some? && viewer.value in st.users && IsStartNode(st, nodeId)
  }

  /** Shows a page to a reader, anonymous or logged in. */
  function ViewNode(st: State, viewer: Option<Id>, nodeId: Id): (r: Step<Node>)
    ensures nodeId !in st.nodes ==> r == Step(st, Err(NotFound))
    ensures nodeId in st.nodes ==>
      && r.out == Ok(st.nodes[nodeId])
      && r.st.stories == st.stories
      && r.st.nodes == st.nodes
      && r.st.nextId == st.nextId
      && r.st.users.Keys == st.users.Keys
    ensures nodeId in st.nodes && !RecordsHistory(st, viewer, nodeId) ==> r.st == st
    ensures nodeId in st.nodes && RecordsHistory(st, viewer, nodeId) ==>
      var u, s := viewer.value, st.nodes[nodeId].storyId;
      && (forall v :: v in st.users && v != u ==> r.st.users[v] == st.users[v])
      && r.st.users[u].username == st.users[u].username
      && r.st.users[u].email == st.users[u].email
      && r.st.users[u].password == st.users[u].password
      && (forall x :: x in r.st.users[u].playedHistory <==> x in st.users[u].playedHistory || x == s)
  {
    if nodeId !in st.nodes then Step(st, Err(NotFound))
    else
      var node := st.nodes[nodeId];
      if RecordsHistory(st, viewer, nodeId) then
        var user := st.users[viewer.value];
        var user' := user.(playedHistory := AddToSet(user.playedHistory, node.storyId));
        Step(st.(users := st.users[viewer.value := user']), Ok(node))
      else
        Step(st, Ok(node))
  }

  /** Viewing a page twice leaves the same state and answer as viewing it once. */
  lemma ViewNodeIdempotent(st: State, viewer: Option<Id>, nodeId: Id)
    ensures var once := ViewNode(st, viewer, nodeId);
      ViewNode(once.st, viewer, nodeId) == once
  {
  }

  /** Viewing keeps every invariant; in particular histories stay duplicate-free. */
  lemma ViewNodePreservesValid(st: State, viewer: Option<Id>, nodeId: Id)
    requires Valid(st)
    ensures Valid(ViewNode(st, viewer, nodeId).st)
  {
  }
}
