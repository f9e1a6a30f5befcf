# Blog posts app — a Dafny model

This project models the `posts` application of a small social blog. Users
publish text posts, optionally in a topical group and with an image. Other
users comment on posts and follow authors to get a personal feed.

The model is functional. The database is an immutable record (`Database.Db`)
holding the users, the group, post, comment and follow tables, a clock and one
primary-key counter per table. The post table is kept newest first, which is
the posts' declared ordering. Every request handler is a pure function: a read
handler returns what its page shows, and a write handler returns the next
state or an error (`LoginRequired`, `NotFound`, `IntegrityError`).

Modules:

- `Wrappers`: `Option` and `Result`.
- `Seqs`: `Filter` (an ordered `WHERE`) and `Pairwise`, with lemmas showing
  that filtering keeps pairwise relations and that filtering distributes
  over prepending or appending one element.
- `Models`: the `Group`, `Post`, `Comment` and `Follow` records, their
  display strings (`PostStr`; `GroupStr`, a plain definition: a group
  displays as its title, posts/models.py:30-31) and the newest-first ordering.
- `FollowGraph`: the follow table's uniqueness constraint, edge existence,
  the follower and following counts, and unfollowing.
- `Database`: the state, its integrity invariant `Valid`, the slug and post
  lookups, row creation under the unique constraints, and the `on_delete`
  rules.
- `Integrity`: every storage operation keeps `Valid`.
- `Pagination`: pages of 12, plus the page a request parameter selects.
- `Timelines`: the group, author and follow timelines. The follow timeline is
  modelled as the database join and proved equal to a plain filter.
- `Views`: the request handlers.
- `ViewProperties`: round trips, idempotence, invariant preservation, and
  where a new post lands.
- `Reachability`: every state reachable from an empty database is `Valid`.

Self-follow is refused at one level only. The storage layer allows a row
whose user and author are the same (`Database.FollowCreate`). The
`profile_follow` view refuses such a follow (`Views.ProfileFollow`).

## Model

| member | source | states |
|---|---|---|
| `Models.PostStr` | posts/models.py:73-74 | a post displays as the prefix of its text of length min(15, text length) |
| `FollowGraph.AddEdgeKeepsUnique` | posts/models.py:121-122 | inserting a row for an absent (user, author) pair keeps the pairs unique |
| `FollowGraph.RemoveEdge` | posts/views.py:181 | deleting the rows of pair (u, a) leaves no such edge, leaves every other pair's existence unchanged, is a no-op when the edge is absent, and keeps pairs unique |
| `FollowGraph.FollowerCountIsFollowers` | posts/views.py:56 | with unique pairs, the followers count equals the number of distinct users following the author |
| `FollowGraph.FollowingCountIsFollowees` | posts/views.py:57 | with unique pairs, the follows count equals the number of distinct authors the user follows |
| `Database.GroupBySlug` | posts/views.py:30 | the slug lookup returns a group with that slug, or reports that none has it |
| `Database.SlugIdentifiesGroup` | posts/models.py:19-24 | under unique slugs, all groups with one slug are the same group, and the lookup returns it |
| `Database.FindPost` | posts/views.py:69 | the post lookup by id and author returns a position holding such a post, or reports that none exists |
| `Database.GroupCreate` | posts/models.py:19-24 | inserting a group fails with an integrity error exactly when the slug is taken; otherwise exactly one row, the new group, is added, the slug finds it, and nothing else changes |
| `Database.FollowCreate` | posts/models.py:104-122 | inserting a follow row succeeds exactly when both users exist and the pair is absent (self-follow allowed); afterwards the edge exists, other pairs are unchanged, and other tables are untouched |
| `Database.DeleteGroup` | posts/models.py:55-61 | deleting a group removes no post, nulls the group on exactly the posts that referenced it, keeps every other field, and keeps the other groups |
| `Database.DeletePost` | posts/models.py:79-86 | deleting a post keeps its comments with their post nulled; no comment refers to the deleted post; other comments and tables are unchanged |
| `Database.CascadeComments` | posts/models.py:79-93 | deleting a user drops their comments; other users' comments survive, with the post nulled if it was one of the deleted posts, and no other comment appears |
| `Database.DeleteUser` | posts/models.py:48-54 | deleting a user removes exactly their posts, their comments and every follow row naming them on either side; afterwards no row names them, no comment points at a removed post, and the groups, clock and id counters are unchanged |
| `Integrity.EmptyValid` | posts/models.py:104-122 | the empty database satisfies every integrity constraint |
| `Integrity.GroupCreateValid` | posts/models.py:19-24 | an accepted group insertion keeps every integrity constraint, including unique slugs |
| `Integrity.FollowCreateValid` | posts/models.py:121-122 | an accepted follow insertion keeps unique pairs and every other constraint |
| `Integrity.DeleteGroupValid` | posts/models.py:55-61 | after deleting a group, no post references a missing group |
| `Integrity.DeletePostValid` | posts/models.py:79-86 | after deleting a post, no comment references a missing post |
| `Integrity.DeleteUserValid` | posts/models.py:48-54 | the user-deletion cascade keeps every integrity constraint |
| `Integrity.DeleteUserFollowsValid` | posts/models.py:106-119 | after the cascade, the follow rows stay unique and name only existing users |
| `Integrity.DeleteUserCommentsValid` | posts/models.py:87-93 | after the cascade, the comments name existing users and existing posts |
| `Pagination.NumPages` | posts/views.py:16 | the page count is the least k ≥ 1 with n ≤ 12k: exactly 1 for an empty list |
| `Pagination.Page` | posts/views.py:20-22 | page k holds min(12, n − 12(k−1)) items, namely items 12(k−1) onward in list order |
| `Pagination.PageNumber` | posts/views.py:22 | a missing parameter selects page 1, an in-range one selects itself, an out-of-range one selects the last page |
| `Pagination.GetPage` | posts/views.py:18-23 | the served page is the slice of page `PageNumber(n, requested)`: its length is min(12, n − 12(k−1)) and its i-th item is item 12(k−1)+i of the list |
| `Pagination.PageSizes` | posts/views.py:20-22 | page 1 is the first min(12, n) items; for 12 < n ≤ 24 there are two pages and page 2 is the remaining n − 12 |
| `Pagination.ItemOnItsPage` | posts/views.py:20-22 | item i is on page i div 12 + 1 at position i mod 12, so the pages together cover the list |
| `Timelines.GroupTimeline` | posts/views.py:31 | the group timeline holds exactly the posts of that group, in newest-first order |
| `Timelines.AuthorTimeline` | posts/views.py:46 | the author timeline holds exactly that author's posts, in newest-first order |
| `Timelines.FollowedPosts` | posts/views.py:160 | reference feed: exactly the posts whose author the user follows, in newest-first order |
| `Timelines.EdgeCount` | posts/views.py:160 | the number of follow rows for a pair is positive exactly when the edge exists |
| `Timelines.FollowTimeline` | posts/views.py:160 | the join of posts with follow rows holds exactly the posts of followed authors |
| `Timelines.EdgeCountAtMostOne` | posts/models.py:121-122 | with unique pairs, each pair has at most one row |
| `Timelines.FollowTimelineIsFollowedPosts` | posts/views.py:160 | with unique pairs, the join equals the filter: each followed post appears once, in timeline order |
| `Timelines.HeadIsNewest` | posts/models.py:69-71 | the head of a newest-first list is newer than every other element |
| `Timelines.NewestFirstDetermined` | posts/models.py:69-71 | two newest-first lists holding the same posts are equal, so each timeline is the ordered listing of what it selects |
| `Timelines.FollowTimelineNewestFirst` | posts/views.py:158-166 | the follow feed keeps the global newest-first order |
| `Views.Stats` | posts/views.py:51-57 | the following flag is false for anonymous visitors and otherwise means the edge exists; with unique pairs, followers and follows are the numbers of distinct followers and followees |
| `Views.Index` | posts/views.py:18-23 | the main page shows page k of all posts in the stored newest-first order: min(12, n − 12(k−1)) posts, the i-th being post 12(k−1)+i |
| `Views.GroupPosts` | posts/views.py:26-41 | an unknown slug is a 404; otherwise the requested page of exactly the group's posts, newest first, with their total count |
| `Views.Profile` | posts/views.py:44-65 | an unknown username is a 404; otherwise the requested page of exactly the author's posts, newest first, with their total count and the author's follow figures |
| `Views.PostView` | posts/views.py:68-88 | a 404 exactly when no post has that id and author; otherwise that post, exactly the comments on it, and its author's follow figures |
| `Views.NewPost` | posts/views.py:91-100 | anonymous callers are refused; a rejected form changes nothing; an accepted form adds exactly one post at the head, written by the requester, with the form's text, group and image, dated after every stored post |
| `Views.PostEdit` | posts/views.py:103-122 | anonymous callers are refused and an unknown post is a 404; a non-author or a rejected form changes nothing; a save changes only that post's text, group and image and keeps its id, author and date |
| `Views.AddComment` | posts/views.py:138-155 | anonymous callers are refused and an unknown post is a 404; a rejected form changes nothing; otherwise exactly one comment is appended, authored by the requester, on the addressed post |
| `Views.FollowIndex` | posts/views.py:158-166 | anonymous callers are refused; otherwise at most 12 posts, each by an author the requester follows |
| `Views.ProfileFollow` | posts/views.py:169-175 | the edge (u, a) is added only when u ≠ a and it is absent; a self-follow or repeat is a no-op; other pairs and tables are unchanged |
| `Views.ProfileUnfollow` | posts/views.py:178-182 | removes exactly the edge (u, a); other pairs are unchanged; a no-op when the edge is absent |
| `ViewProperties.FollowIdempotent` | posts/views.py:172-174 | following twice has the same effect as following once |
| `ViewProperties.UnfollowIdempotent` | posts/views.py:181 | unfollowing twice has the same effect as unfollowing once |
| `ViewProperties.FollowThenUnfollow` | posts/views.py:169-182 | from a state without the edge, follow makes the existence check true, and unfollow restores the follow table row for row |
| `ViewProperties.NewPostValid` | posts/views.py:95-99 | publishing keeps every integrity constraint |
| `ViewProperties.PostEditValid` | posts/views.py:107-118 | editing keeps every integrity constraint |
| `ViewProperties.AddCommentValid` | posts/views.py:146-151 | commenting keeps every integrity constraint |
| `ViewProperties.ProfileFollowValid` | posts/views.py:172-174 | following keeps unique pairs and every other constraint |
| `ViewProperties.ProfileUnfollowValid` | posts/views.py:181 | unfollowing keeps every integrity constraint |
| `ViewProperties.NewPostComesFirst` | posts/models.py:69-71 | a new post is newer than every stored post; it heads the main page, its group's timeline, its author's timeline and each follower's feed, ahead of their earlier content |
| `ViewProperties.FollowIndexShowsFollowedPosts` | posts/views.py:158-166 | the feed page is the page of exactly the followed posts, in newest-first order |
| `Reachability.ApplyKeepsValid` | posts/views.py:91-182 | every step, handler or storage operation, keeps the integrity constraints |
| `Reachability.RunKeepsValid` | posts/models.py:104-122 | any sequence of steps from a valid state ends in a valid state |
| `Reachability.ReachableStatesValid` | posts/models.py:121-122 | no state reachable from an empty database has two follow rows for one pair, two groups with one slug, or a dangling reference |

## Left out

- Template rendering, redirects, status codes and the 404/500 handlers (`page_not_found`, `server_error`). A 404 is `Err(NotFound)`. The login redirect is `Err(LoginRequired)`. A redirect after a write is the returned state.
- GET requests to `new_post` and `post_edit` only render a form, so they are not modelled as transitions.
- `profile_follow` and `profile_unfollow` end by rendering the profile page. The model returns only the new state; the page is `Views.Profile` of that state.
- Form validation is an opaque `valid` flag. The model adds the two checks the invariants rely on: required text must be non-empty, and a group choice must name an existing group. `PostForm` has only text, group and image, so author and date are never client-supplied.
- Image storage and upload paths are left out. An image is its path string. The "clear" checkbox and "no new upload" are modelled.
- Response caching of the main page (`cache_page`) is left out: it is a framework cache.
- Wall-clock time is modelled as a counter that ticks once per stamped row. Two posts published at the same instant, which would tie in the `-pub_date` ordering, are not modelled.
- Account creation is the authentication framework's job. It appears only as the `Register` step in `Reachability`. A request whose session names no existing user is refused there.
- Concurrent follow requests are not modelled. The model is sequential. The follow table's uniqueness is a proved invariant, not a storage-level race guard.
- Comments on a post are shown in table order, because the comment model declares no ordering.
- `Views.PostView` reports the author's post count. The source stores the `count` method, uncalled, and lets the template call it; the model reports the number.
- Field metadata (`verbose_name`, `help_text`, `max_length`) and the migrations are left out: they restate the model definitions.
