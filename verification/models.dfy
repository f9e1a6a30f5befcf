/** The four records of the blog: groups, posts, comments and follow edges.
    Users come from the authentication framework and are identified here
    by their (unique) username. */
module Models {
  import opened Wrappers
  import opened Seqs

  type Username = string

  /** A topical community; `slug` is its unique address. */
  datatype Group = Group(id: nat, title: string, slug: string, description: string)

  /** A publication. `pubDate` is stamped once at creation; `group` and
      `image` are nullable. */
  datatype Post = Post(
    id: nat,
    text: string,
    pubDate: int,
    author: Username,
    group: Option<nat>,
    image: Option<string>)

  /** A comment; `post` becomes null when the commented post is deleted. */
  datatype Comment = Comment(id: nat, post: Option<nat>, author: Username, text: string, created: int)

  /** A directed edge: `user` follows `author`. */
  datatype Follow = Follow(id: nat, user: Username, author: Username)

  /** Number of characters a post shows as its display string. */
  const PostStrLength: nat := 15

  /** The display string of a post: the start of its text. */
  function PostStr(p: Post): (s: string)
    ensures |s| == Min(PostStrLength, |p.text|)
    ensures s <= p.text
  {
    p.text[..Min(PostStrLength, |p.text|)]
  }

  /** The display string of a group is its title. */
  function GroupStr(g: Group): string
  {
    g.title
  }

  /** The posts' default ordering is newest first: `a` is listed before
      `b` when it was published later. */
  predicate Newer(a: Post, b: Post)
  {
    a.pubDate > b.pubDate
  }
}
