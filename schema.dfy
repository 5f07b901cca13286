/**
 * The record shapes of the blog's two tables, `users` and `posts`, as their
 * column declarations and insert schemas define them. A column declared
 * not-null is a plain field; a nullable column is an `Option`. Timestamps are
 * the integer milliseconds a JavaScript `Date` holds.
 */
module Schema {
  import opened Wrappers

  type Timestamp = nat

  /** A row of `users`: both columns are not-null; `username` is declared unique. */
  datatype User = User(id: int, username: string, password: string)

  /** The user insert schema: exactly the two columns `username` and `password`. */
  datatype InsertUser = InsertUser(username: string, password: string)

  /**
   * A row of `posts`. The five text columns are not-null; `readTime`,
   * `imageUrl`, `createdAt` and `updatedAt` are nullable.
   */
  datatype Post = Post(
    id: int,
    title: string,
    content: string,
    summary: string,
    author: string,
    category: string,
    readTime: Option<string>,
    createdAt: Option<Timestamp>,
    updatedAt: Option<Timestamp>,
    imageUrl: Option<string>)

  /** The post insert schema: a post without `id`, `createdAt` and `updatedAt`. */
  datatype InsertPost = InsertPost(
    title: string,
    content: string,
    summary: string,
    author: string,
    category: string,
    readTime: Option<string>,
    imageUrl: Option<string>)

  /**
   * A partial post insert: every field may be absent. For the two nullable
   * columns a present field may still carry `null`, hence the nested `Option`.
   */
  datatype PostPatch = PostPatch(
    title: Option<string>,
    content: Option<string>,
    summary: Option<string>,
    author: Option<string>,
    category: Option<string>,
    readTime: Option<Option<string>>,
    imageUrl: Option<Option<string>>)

  /** The patch that names no field. */
  const NoChanges: PostPatch := PostPatch(None, None, None, None, None, None, None)

  /** The column defaults declared on `posts.read_time` and `posts.image_url`. */
  const DefaultReadTime: string := "3 min read"
  const DefaultImageUrl: string := "https://images.unsplash.com/photo-1498050108023-c5249f4df085"

  /** The user insert shape of a stored user: everything but the id. */
  function UserInsertShape(u: User): (r: InsertUser)
    ensures WithUserId(r, u.id) == u
  {
    InsertUser(u.username, u.password)
  }

  /** A stored user built from its insert shape and the id the store assigns. */
  function WithUserId(ins: InsertUser, id: int): (u: User)
    ensures u.id == id && u.username == ins.username && u.password == ins.password
  {
    User(id, ins.username, ins.password)
  }

  /** The insert shape of a stored post: everything but the three server-set columns. */
  function InsertShape(p: Post): (r: InsertPost)
    ensures WithServerFields(r, p.id, p.createdAt, p.updatedAt) == p
  {
    InsertPost(p.title, p.content, p.summary, p.author, p.category, p.readTime, p.imageUrl)
  }

  /** A stored post built from an insert shape and the three server-set columns. */
  function WithServerFields(ins: InsertPost, id: int, createdAt: Option<Timestamp>, updatedAt: Option<Timestamp>): (p: Post)
    ensures p.id == id && p.createdAt == createdAt && p.updatedAt == updatedAt
    ensures p.title == ins.title && p.content == ins.content && p.summary == ins.summary
    ensures p.author == ins.author && p.category == ins.category
    ensures p.readTime == ins.readTime && p.imageUrl == ins.imageUrl
  {
    Post(id, ins.title, ins.content, ins.summary, ins.author, ins.category,
         ins.readTime, createdAt, updatedAt, ins.imageUrl)
  }

  /** Attaching the server-set fields and projecting them away again gives back the input. */
  lemma InsertShapeRoundTrip(ins: InsertPost, id: int, createdAt: Option<Timestamp>, updatedAt: Option<Timestamp>, uins: InsertUser)
    ensures InsertShape(WithServerFields(ins, id, createdAt, updatedAt)) == ins
    ensures UserInsertShape(WithUserId(uins, id)) == uins
  {
  }

  /**
   * A post insert as sent to a table: each of the two defaulted columns may be
   * left out (`None`), sent as `null` (`Some(None)`) or sent with a value
   * (`Some(Some(v))`).
   */
  datatype InsertColumns = InsertColumns(
    title: string,
    content: string,
    summary: string,
    author: string,
    category: string,
    readTime: Option<Option<string>>,
    imageUrl: Option<Option<string>>)

  /** The insert that sends every column of `ins`, a missing value as `null`. */
  function AllColumns(ins: InsertPost): (c: InsertColumns)
    ensures c.readTime == Some(ins.readTime) && c.imageUrl == Some(ins.imageUrl)
    ensures c.title == ins.title && c.content == ins.content && c.summary == ins.summary
    ensures c.author == ins.author && c.category == ins.category
  {
    InsertColumns(ins.title, ins.content, ins.summary, ins.author, ins.category,
                  Some(ins.readTime), Some(ins.imageUrl))
  }

  /**
   * What a relational table would store for an insert: the declared default
   * fills `readTime` and `imageUrl` only when the column is left out; a column
   * sent as `null` stays null.
   */
  function WithDeclaredDefaults(c: InsertColumns): (r: InsertPost)
    ensures c.readTime.None? ==> r.readTime == Some(DefaultReadTime)
    ensures c.readTime.Some? ==> r.readTime == c.readTime.value
    ensures c.imageUrl.None? ==> r.imageUrl == Some(DefaultImageUrl)
    ensures c.imageUrl.Some? ==> r.imageUrl == c.imageUrl.value
    ensures r.title == c.title && r.content == c.content && r.summary == c.summary
    ensures r.author == c.author && r.category == c.category
  {
    InsertPost(c.title, c.content, c.summary, c.author, c.category,
               c.readTime.GetOr(Some(DefaultReadTime)),
               c.imageUrl.GetOr(Some(DefaultImageUrl)))
  }

  /**
   * An insert that sends every column, even as `null`, is stored as sent; so
   * storing a stored row again changes nothing.
   */
  lemma DefaultsOnlyFillOmitted(ins: InsertPost, c: InsertColumns)
    ensures WithDeclaredDefaults(AllColumns(ins)) == ins
    ensures WithDeclaredDefaults(AllColumns(WithDeclaredDefaults(c))) == WithDeclaredDefaults(c)
  {
  }

  /** `{ ...ins, ...patch }`: every field the patch names overrides, every other field stays. */
  function Patched(ins: InsertPost, u: PostPatch): (r: InsertPost)
    ensures u == NoChanges ==> r == ins
    ensures u.title.None? ==> r.title == ins.title
    ensures u.content.None? ==> r.content == ins.content
    ensures u.summary.None? ==> r.summary == ins.summary
    ensures u.author.None? ==> r.author == ins.author
    ensures u.category.None? ==> r.category == ins.category
    ensures u.readTime.None? ==> r.readTime == ins.readTime
    ensures u.imageUrl.None? ==> r.imageUrl == ins.imageUrl
    ensures u.title.Some? ==> r.title == u.title.value
    ensures u.content.Some? ==> r.content == u.content.value
    ensures u.summary.Some? ==> r.summary == u.summary.value
    ensures u.author.Some? ==> r.author == u.author.value
    ensures u.category.Some? ==> r.category == u.category.value
    ensures u.readTime.Some? ==> r.readTime == u.readTime.value
    ensures u.imageUrl.Some? ==> r.imageUrl == u.imageUrl.value
  {
    InsertPost(
      u.title.GetOr(ins.title),
      u.content.GetOr(ins.content),
      u.summary.GetOr(ins.summary),
      u.author.GetOr(ins.author),
      u.category.GetOr(ins.category),
      u.readTime.GetOr(ins.readTime),
      u.imageUrl.GetOr(ins.imageUrl))
  }

  /** Spreading `first` and then `second`: a field named by `second` wins. */
  function ThenPatch(first: PostPatch, second: PostPatch): PostPatch {
    PostPatch(
      if second.title.Some? then second.title else first.title,
      if second.content.Some? then second.content else first.content,
      if second.summary.Some? then second.summary else first.summary,
      if second.author.Some? then second.author else first.author,
      if second.category.Some? then second.category else first.category,
      if second.readTime.Some? then second.readTime else first.readTime,
      if second.imageUrl.Some? then second.imageUrl else first.imageUrl)
  }

  /** Two successive patches act as their combination, and a repeated patch acts once. */
  lemma PatchedComposes(ins: InsertPost, first: PostPatch, second: PostPatch)
    ensures Patched(Patched(ins, first), second) == Patched(ins, ThenPatch(first, second))
    ensures Patched(Patched(ins, first), first) == Patched(ins, first)
  {
  }

  /** No two users share a username, as the column's `unique()` declares. */
  predicate UsernamesUnique(users: map<int, User>) {
    forall a, b :: a in users && b in users && a != b ==> users[a].username != users[b].username
  }
}
