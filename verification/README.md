# Interactive Story Builder — story/node bookkeeping model

This project models the state-changing core of the Interactive Story Builder web application (`app.py`), a Flask + MongoDB app for authoring and playing branching "choose your own adventure" stories. The model is a Dafny 4.11 project.

The database is an immutable `Store.State` holding three maps: `users`, `stories` and `nodes` (the `story_nodes` collection). Each request handler is a pure function of its request fields. The handlers that write (create, delete and edit a story, add and save a page, register, view a page) also take the state and return a `Step` value. A `Step` holds the next state and either a result or an `Error`. The reading handlers (`GetNode`, `Login`) and generate-ending take the state and return a `Result`. The enrich and suggest-choices endpoints read no state and return a `Result`. The identity that the Flask session carries becomes an explicit `Option<Id>` argument. ObjectIds become naturals, handed out by one counter (`nextId`) that all three collections share.

Modules:

- `Types` (types.dfy): `Option`, `Result`, `Id` and the error outcomes.
- `Store` (store.dfy): the documents, the state, and the invariant `Valid`. `Valid` requires four things:
  - every id in use lies below the counter;
  - emails are unique;
  - no played history holds duplicates;
  - every story's start node exists and belongs to that story.
- `Stories` (stories.dfy): create, delete, update details, set poster.
- `Nodes` (nodes.dfy): add a page, read a page, save a page.
- `Auth` (auth.dfy): register and login.
- `Player` (player.dfy): viewing a page, which records the story in the viewer's played history.
- `Text` (text.dfy): Python's `str.strip`, `str.lstrip(chars)`, `str.split(sep)` and `sep.join`.
- `Ai` (ai.dfy): the three endpoints that call the generative-text gateway, and the parser for suggested choices.

Behaviour of app.py that the model keeps:

- A save-node request missing `storyText` or `choices` raises `KeyError` (app.py:319-320), so the handler answers HTTP 500 (`InternalError`) before any write.
- Generate-ending looks the story up before its `try` (app.py:346-347). An unknown story raises there, so the handler answers 500. For a known story every gateway failure becomes the fixed closing line. The handler checks no session.
- Update-details and set-poster answer success even when their owner filter matches nothing (app.py:222-230, app.py:292-296). The state is then unchanged.
- Create-node checks neither that the story exists nor that the caller owns it (app.py:332-338). Save-node checks no ownership, and answers success for a missing page (app.py:316-325).

## Model

| member | source | states |
|---|---|---|
| Store.EmptyValid | app.py:18-22 | A fresh database with no users, stories or pages satisfies the invariant that every other operation is proved to keep. |
| Stories.CreateStory | app.py:235-265 | No session gives Unauthorized and no change. Otherwise one fresh story is added, authored by the caller with the given title and description and an empty poster. One fresh page is added, belonging to that story, with the placeholder text, an empty background, no choices and no next page. The story's start node is that page, and all existing users, stories and pages are unchanged. |
| Stories.CreateStoryAddsOneOfEach | app.py:243-262 | Creating a story grows the story collection by exactly one and the page collection by exactly one. |
| Stories.CreateStoryPreservesValid | app.py:243-262 | From a valid state, creation keeps every invariant. In particular, the new story's start node links back to it. |
| Stories.DeleteStory | app.py:267-282 | No session gives Unauthorized. A caller who is not the author, or an absent story, gives NotFound with the state unchanged. For the author, exactly that story is removed, along with exactly the pages whose story id is that story. No page of it remains, and every other story, page and user is unchanged. |
| Stories.DeleteStoryPreservesValid | app.py:272-277 | The cascade never removes another story's start node, so every invariant survives deletion. |
| Stories.CreateThenDeleteRestores | app.py:243-277 | Deleting a story just created by the same user restores the user, story and page collections exactly, provided no page already named the new story's id. |
| Stories.UpdateDetails | app.py:217-230 | No session gives Unauthorized and no change. With a session the answer is always success and only the addressed story may change. It changes only when the caller is its author, and then only its title and description. |
| Stories.SetPoster | app.py:285-296 | Same gating as the details update. For the author, only the poster reference changes to the given value. For anyone else, nothing changes. |
| Stories.EditsPreserveValid | app.py:222-228 | Details and poster updates keep every invariant. |
| Nodes.CreateNode | app.py:327-340 | No session gives Unauthorized. Any session, author or not and whether or not the story exists, adds one fresh page with text "New Page", an empty background, no choices and no next page, attached to the given story id. Existing pages, stories and users are unchanged. |
| Nodes.CreateThenGet | app.py:332-340 | A page just added reads back as that blank page of the given story. |
| Nodes.GetNode | app.py:301-312 | Reading succeeds exactly when there is a session and the page exists, and then returns the stored page. Otherwise it returns Unauthorized or NotFound. |
| Nodes.SaveNode | app.py:314-325 | No session gives Unauthorized. A payload missing `storyText` or `choices` fails before any write. Otherwise only the addressed page changes: its text, choices, background and next page become the payload's, and its story id is kept. A missing page leaves the state unchanged. |
| Nodes.SaveThenGet | app.py:306-324 | After a save, a read of the same page returns exactly the saved text, choices, background and next page, under the page's original story. |
| Nodes.NodeOpsPreserveValid | app.py:316-338 | Adding and saving pages keep every invariant. Since no page changes story, start nodes stay linked. |
| Auth.FirstWithEmail | app.py:114 | The lookup finds the lowest-id user with the email in the scanned range, or reports that no user in the range has it. |
| Auth.Register | app.py:98-111 | An email already stored gives DuplicateEmail and no change. Otherwise exactly one fresh user is added, with that name, email and stored hash and an empty history. Everything else is unchanged. |
| Auth.RegisterPreservesValid | app.py:100-109 | Registration keeps emails unique and every other invariant. |
| Auth.DuplicateRegistrationRejected | app.py:100-102 | A second registration with the same email fails and leaves the first user's record intact. |
| Auth.Login | app.py:113-128 | Every failure is InvalidCredentials. A success names a stored user with that email whose hash accepts the password, and it carries that user's name. |
| Auth.LoginSucceedsIff | app.py:114-128 | In a valid state, login succeeds if and only if some user has the email and a hash that accepts the password. |
| Auth.RegisterThenLogin | app.py:104-117 | After registering, logging in with a password the stored hash accepts yields a session for the new user, carrying the registered name. |
| Player.AddToSet | app.py:204-209 | The result holds exactly the old entries plus the story. The old history is kept as a prefix, the length grows by at most one, and a duplicate-free history stays duplicate-free. |
| Player.AddToSetIdempotent | app.py:204-209 | Inserting the same story twice equals inserting it once. |
| Player.ViewNode | app.py:192-214 | A missing page gives NotFound and no change. Otherwise the page is returned, and stories and pages are unchanged. The viewer's history gains the page's story only when the viewer is logged in, is a stored user, and the page is its story's start node. In every other case no history changes. Other users and the viewer's other fields are unchanged. |
| Player.ViewNodeIdempotent | app.py:200-209 | Viewing a page twice yields the same state and answer as viewing it once. |
| Player.ViewNodePreservesValid | app.py:206-209 | Viewing keeps every invariant, so played histories stay duplicate-free. |
| Text.TrimLeft | app.py:392 | The result is a suffix of the input. Every removed character satisfies the predicate, and the first kept character does not. |
| Text.TrimRight | app.py:392 | The result is a prefix of the input. Every removed character satisfies the predicate, and the last kept character does not. |
| Text.Strip | app.py:392 | Neither end of the result is Python whitespace. The result is empty exactly when the input is all whitespace. Every character of the result occurs in the input. |
| Text.StripIsInfix | app.py:392 | The stripped string is the infix of the input left after removing an all-whitespace prefix and an all-whitespace suffix, so nothing inside it is touched. |
| Text.StripKeeps | app.py:392 | A non-empty string with no whitespace at either end is its own strip. |
| Text.Split | app.py:392 | Splitting gives one more segment than there are separators, and no segment contains the separator. |
| Text.JoinSplit | app.py:392 | Joining the segments of a split with the separator gives the original string back. |
| Text.SplitJoin | app.py:392 | Splitting a join of one or more separator-free segments gives those segments back. |
| Ai.GenerateEnding | app.py:343-353 | An unknown story gives an internal error. For a known story the endpoint always succeeds: with the fixed closing line when the gateway fails, and with the trimmed completion otherwise. |
| Ai.Enrich | app.py:358-368 | No session gives Unauthorized, and an absent or empty idea gives a validation error. A gateway failure gives a service error carrying the gateway's message. Otherwise the result is the trimmed completion. |
| Ai.CleanChoice | app.py:392 | A cleaned line is a suffix of the stripped line, and every character removed from the front of the stripped line is `-`, `*` or space. The result does not start with `-`, `*` or space, and it does not end in whitespace. Every character of it occurs in the line. |
| Ai.CleanAll | app.py:392 | One cleaned choice per line, in order: the result has as many entries as there are lines, and its i-th entry is the i-th line cleaned. |
| Ai.ParseChoiceLines | app.py:392 | There is one choice per newline in the trimmed reply, plus one. No choice contains a newline, starts with a bullet character or ends in whitespace. |
| Ai.ParseChoiceLinesSegments | app.py:392 | The i-th choice is the cleaned i-th newline segment of the trimmed reply, and those segments join back to the trimmed reply. |
| Ai.ParseJoinedChoices | app.py:385-392 | A reply in the format the prompt asks for, one or more clean choices separated by newlines, parses back to exactly those choices. |
| Ai.BlankLinesKept | app.py:392 | A blank segment is not filtered out. It yields an empty choice at the same position. |
| Ai.SuggestChoices | app.py:371-395 | No session gives Unauthorized, and an absent or empty description gives a validation error. A gateway failure gives a service error carrying the gateway's message. Otherwise the result is the parsed list of choices. |

## Left out

- Flask routing, templates, redirects, flash messages and the `next` redirect after login: these are presentation. A redirect-with-flash failure appears as an `Error`.
- Session cookies and logout: the session identity is an explicit `Option<Id>` argument, and clearing it is the caller's business.
- bcrypt: a registration receives the hash it stores, and a login receives the library's password check as a function argument.
- The discover page (app.py:73-88), the dashboard (app.py:139-163) and the editor page (app.py:166-190): none of them changes state. The discover page is an aggregation (`$lookup`/`$unwind`) of stories with their authors. The dashboard is a `find` of the caller's stories plus an aggregation of the played stories. The editor page is a `find_one` of the story filtered on the caller as author, plus a `find` of its pages. The editor's owner gate is not modelled.
- The outbound HTTP request, timeout, API-key lookup and error logging of `call_gemini_api`: the gateway is a function argument returning the completion text or an error message.
- ObjectId parsing of path and body strings, and the exception-to-404 fallback of the player: every id argument is taken to be a well-formed id.
- Non-atomicity of the three writes in story creation: creation is one transition, so a story never lacks its start node.
- Non-atomicity of story deletion: `delete_one` on the story and `delete_many` on its pages are separate writes (app.py:276-277), and a crash between them leaves orphan pages. Deletion is one transition here.
- Concurrent requests: the model runs one request at a time. Registration checks the email with `find_one` and then inserts with `insert_one` (app.py:100-105), and app.py creates no unique index, so two overlapping registrations can both store the same email. `Store.UniqueEmails`, and with it `Auth.RegisterPreservesValid` and the "if" direction of `Auth.LoginSucceedsIff`, hold only when registrations do not overlap. Likewise, a page added (app.py:332-338) while its story's deletion runs (app.py:276-277) can be left with no story.
- Requests without a JSON body: the handlers at app.py:290, 315, 345, 361 and 376 read `request.json`, which then fails with a client error (415) or, on older Flask, raises inside the handler (500). The model takes every JSON request to carry a JSON object, so `SetPoster` answers success to every logged-in caller, and `Enrich` and `SuggestChoices` can only reject an absent field with `ValidationError`.
- Absent form fields (`title`, `description`, `username`, `email`, `password` read with `form.get`) are taken to be present strings. The JSON body fields read with `.get` (poster, background, next page, prompt, description, story title) are optional.
- Nodes.SaveNode: the payload's `choices` are modelled as a list of caption/target pairs and `nextNodeId` as an optional id. The code stores whatever JSON values it receives.
