/** The three document collections (`users`, `stories`, `story_nodes`) and
    the invariants that the story/node operations keep. */
module Store {
  import opened Types

  /** The stored form of a password hash; hashing and checking are foreign. */
  type Hash = string

  /** One choice of a node: a caption (the JSON `label`) and the identifier of its target page. */
  datatype Choice = Choice(caption: string, target: string)

  datatype User = User(username: string, email: string, password: Hash, playedHistory: seq<Id>)

  datatype Story = Story(
    title: string,
    description: string,
    authorId: Id,
    startNodeId: Option<Id>,
    posterImageUrl: Option<string>)

  datatype Node = Node(
    storyId: Id,
    storyText: string,
    backgroundImageUrl: Option<string>,
    choices: seq<Choice>,
    nextNodeId: Option<Id>)

  /** The whole database. `nextId` is the next identifier the store will hand out. */
  datatype State = State(
    users: map<Id, User>,
    stories: map<Id, Story>,
    nodes: map<Id, Node>,
    nextId: Id)

  /** The state after a request together with what the request answered. */
  datatype Step<+T> = Step(st: State, out: Result<T, Error>)

  /** The state of a fresh database: no users, stories or pages. */
  const Empty: State := State(map[], map[], map[], 0)

  /** Placeholder text of the first page of a new story. */
  const FirstPageText: string := "This is the beginning of your story. Edit this page to get started!"

  /** Placeholder text of a page added in the editor. */
  const NewPageText: string := "New Page"

  /** Every identifier in use lies below the counter, so the counter is fresh. */
  predicate IdsBelowCounter(st: State) {
    && (forall u :: u in st.users ==> u < st.nextId)
    && (forall s :: s in st.stories ==> s < st.nextId)
    && (forall n :: n in st.nodes ==> n < st.nextId)
  }

  predicate NoDuplicates<T(==)>(s: seq<T>) {
    forall i, j :: 0 <= i < j < |s| ==> s[i] != s[j]
  }

  /** No two users share an email. */
  predicate UniqueEmails(st: State) {
    forall u, v :: u in st.users && v in st.users && st.users[u].email == st.users[v].email ==> u == v
  }

  /** Every played history is a set: no story appears twice in it. */
  predicate HistoriesDistinct(st: State) {
    forall u :: u in st.users ==> NoDuplicates(st.users[u].playedHistory)
  }

  /** Every story's start node exists and belongs to that story. */
  predicate StartNodesLinked(st: State) {
    forall s :: s in st.stories ==>
      && st.stories[s].startNodeId.Some?
      && st.stories[s].startNodeId.value in st.nodes
      && st.nodes[st.stories[s].startNodeId.value].storyId == s
  }

  predicate Valid(st: State) {
    && IdsBelowCounter(st)
    && UniqueEmails(st)
    && HistoriesDistinct(st)
    && StartNodesLinked(st)
  }

  /** A fresh database satisfies the invariant, so every state reached from
      it by the operations that preserve `Valid` satisfies it too. */
  lemma EmptyValid()
    ensures Valid(Empty)
  {
  }

  /** The caller is the author of an existing story. */
  predicate Owns(st: State, caller: Id, storyId: Id) {
    storyId in st.stories && st.stories[storyId].authorId == caller
  }

  /** The nodes attached to a story. */
  function NodesOf(st: State, storyId: Id): set<Id> {
    set n | n in st.nodes && st.nodes[n].storyId == storyId
  }

  /** The node is the designated start node of the story it belongs to. */
  predicate IsStartNode(st: State, nodeId: Id)
    requires nodeId in st.nodes
  {
    var s := st.nodes[nodeId].storyId;
    s in st.stories && st.stories[s].startNodeId == Some(nodeId)
  }

  /** Two states differ at most in the story stored under `storyId`. */
  predicate OnlyStoryChanged(st: State, st': State, storyId: Id) {
    && st'.users == st.users
    && st'.nodes == st.nodes
    && st'.nextId == st.nextId
    && st'.stories.Keys == st.stories.Keys
    && (forall s :: s in st.stories && s != storyId ==> st'.stories[s] == st.stories[s])
  }
}
