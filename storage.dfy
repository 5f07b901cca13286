/**
 * The in-memory blog store `MemStorage`: two insertion-ordered maps keyed by
 * integer id (`users`, `blogPosts`) and two id counters. The store's state is
 * the value `Store`; each operation is first a function on that value, and
 * the class `MemStorage` below performs it in place on its own fields.
 */
module Storage {
  import opened Wrappers
  import opened OrderedMaps
  import opened Schema
  import Seed

  datatype Store = Store(
    users: OrderedMap<User>,
    blogPosts: OrderedMap<Post>,
    currentUserId: int,
    currentPostId: int)

  /** The store right after its fields are initialised, before the seed posts. */
  const Fresh: Store := Store(Empty(), Empty(), 1, 1)

  /**
   * What every operation keeps: the maps are well formed, ids are handed out in
   * increasing order (so each map's insertion order is ascending), every key is
   * below its counter and is the id of the record under it, and every stored
   * post carries both timestamps.
   */
  predicate Invariant(s: Store) {
    && 1 <= s.currentUserId
    && 1 <= s.currentPostId
    && Wf(s.users) && Ascending(s.users.order)
    && Wf(s.blogPosts) && Ascending(s.blogPosts.order)
    && (forall k :: k in s.users.entries ==> 1 <= k < s.currentUserId && s.users.entries[k].id == k)
    && (forall k :: k in s.blogPosts.entries ==>
          && 1 <= k < s.currentPostId
          && s.blogPosts.entries[k].id == k
          && s.blogPosts.entries[k].createdAt.Some?
          && s.blogPosts.entries[k].updatedAt.Some?)
  }

  /** Every stored post was created no later than its last update, and both happened by time `t`. */
  predicate StampedBy(s: Store, t: Timestamp) {
    forall k :: k in s.blogPosts.entries ==>
      var p := s.blogPosts.entries[k];
      p.createdAt.Some? && p.updatedAt.Some? && p.createdAt.value <= p.updatedAt.value <= t
  }

  // ---------------------------------------------------------------- users

  /** The first user, in insertion order, whose username is exactly `name`. */
  function FirstWithUsername(users: seq<User>, name: string): (r: Option<User>)
    ensures r.None? <==> forall i :: 0 <= i < |users| ==> users[i].username != name
    ensures r.Some? ==> exists i :: 0 <= i < |users| && users[i] == r.value && r.value.username == name &&
                          forall j :: 0 <= j < i ==> users[j].username != name
  {
    if users == [] then None
    else if users[0].username == name then Some(users[0])
    else
      var r := FirstWithUsername(users[1..], name);
      assert r.Some? ==> exists i :: 1 <= i < |users| && users[i] == r.value && r.value.username == name &&
                          forall j :: 0 <= j < i ==> users[j].username != name by {
        if r.Some? {
          var i :| 0 <= i < |users[1..]| && users[1..][i] == r.value && r.value.username == name &&
                   forall j :: 0 <= j < i ==> users[1..][j].username != name;
          assert forall j :: 1 <= j < i + 1 ==> users[j] == users[1..][j - 1];
        }
      }
      r
  }

  /**
   * `createUser`: the user gets the next user id and is stored exactly as given;
   * nothing checks whether the username is taken.
   */
  function CreateUserStep(s: Store, ins: InsertUser): (r: (Store, User))
    ensures r.1.id == s.currentUserId && UserInsertShape(r.1) == ins
    ensures Get(r.0.users, r.1.id) == Some(r.1)
    ensures forall k :: k != r.1.id ==> Get(r.0.users, k) == Get(s.users, k)
    ensures r.0.currentUserId == s.currentUserId + 1
    ensures r.0.blogPosts == s.blogPosts && r.0.currentPostId == s.currentPostId
    ensures Invariant(s) ==> Invariant(r.0) && r.1.id !in s.users.entries
    ensures Invariant(s) ==> r.0.users.order == s.users.order + [r.1.id]
  {
    var id := s.currentUserId;
    var user := WithUserId(ins, id);
    var s' := s.(users := Set(s.users, id, user), currentUserId := id + 1);
    assert Invariant(s) ==> Invariant(s') by {
      if Invariant(s) {
        assert id !in s.users.entries;
        assert s'.users.order == s.users.order + [id];
        forall i | 0 <= i < |s.users.order| ensures s.users.order[i] < id {
          assert s.users.order[i] in s.users.entries;
        }
      }
    }
    (s', user)
  }

  // ---------------------------------------------------------------- posts

  /**
   * `createPost`: the post gets the next post id, copies every input field, and
   * is stamped created and updated at the same instant `now`. No column default
   * is applied.
   */
  function CreatePostStep(s: Store, ins: InsertPost, now: Timestamp): (r: (Store, Post))
    ensures r.1.id == s.currentPostId && InsertShape(r.1) == ins
    ensures r.1.createdAt == Some(now) && r.1.updatedAt == Some(now)
    ensures Get(r.0.blogPosts, r.1.id) == Some(r.1)
    ensures forall k :: k != r.1.id ==> Get(r.0.blogPosts, k) == Get(s.blogPosts, k)
    ensures r.0.currentPostId == s.currentPostId + 1
    ensures r.0.users == s.users && r.0.currentUserId == s.currentUserId
    ensures Invariant(s) ==> Invariant(r.0) && r.1.id !in s.blogPosts.entries
    ensures Invariant(s) ==> r.0.blogPosts.order == s.blogPosts.order + [r.1.id]
    ensures forall t: Timestamp :: StampedBy(s, t) && t <= now ==> StampedBy(r.0, now)
  {
    var id := s.currentPostId;
    var post := WithServerFields(ins, id, Some(now), Some(now));
    var s' := s.(blogPosts := Set(s.blogPosts, id, post), currentPostId := id + 1);
    assert Invariant(s) ==> Invariant(s') by {
      if Invariant(s) {
        assert id !in s.blogPosts.entries;
        forall i | 0 <= i < |s.blogPosts.order| ensures s.blogPosts.order[i] < id {
          assert s.blogPosts.order[i] in s.blogPosts.entries;
        }
      }
    }
    (s', post)
  }

  /**
   * The merged record `updatePost` stores: `{ ...post, ...updates, id, updatedAt: now }`.
   * Fields the patch names are overridden, all others kept, the id pinned to the
   * one asked for, `createdAt` untouched and `updatedAt` refreshed.
   */
  function MergeUpdate(post: Post, id: int, updates: PostPatch, now: Timestamp): (r: Post)
    ensures InsertShape(r) == Patched(InsertShape(post), updates)
    ensures r.id == id
    ensures r.createdAt == post.createdAt
    ensures r.updatedAt == Some(now)
  {
    WithServerFields(Patched(InsertShape(post), updates), id, post.createdAt, Some(now))
  }

  /** An update that names no field only refreshes `updatedAt`. */
  lemma MergeNoChanges(post: Post, now: Timestamp)
    ensures MergeUpdate(post, post.id, NoChanges, now) == post.(updatedAt := Some(now))
  {
    InsertShapeRoundTrip(InsertShape(post), post.id, post.createdAt, Some(now), InsertUser([], []));
  }

  /** Two updates in a row act as one update with the later patch winning, stamped at the later time. */
  lemma {:induction false} MergeComposes(post: Post, id: int, first: PostPatch, second: PostPatch, t1: Timestamp, t2: Timestamp)
    ensures MergeUpdate(MergeUpdate(post, id, first, t1), id, second, t2)
         == MergeUpdate(post, id, ThenPatch(first, second), t2)
  {
    PatchedComposes(InsertShape(post), first, second);
  }

  /**
   * `updatePost`: on an absent id nothing happens and nothing is returned; on a
   * present id the merged record replaces the old one in its place.
   */
  function UpdatePostStep(s: Store, id: int, updates: PostPatch, now: Timestamp): (r: (Store, Option<Post>))
    ensures id !in s.blogPosts.entries ==> r == (s, None)
    ensures id in s.blogPosts.entries ==>
      && r.1 == Some(MergeUpdate(s.blogPosts.entries[id], id, updates, now))
      && Get(r.0.blogPosts, id) == r.1
      && r.0.blogPosts.order == s.blogPosts.order
    ensures forall k :: k != id ==> Get(r.0.blogPosts, k) == Get(s.blogPosts, k)
    ensures r.0.users == s.users && r.0.currentUserId == s.currentUserId && r.0.currentPostId == s.currentPostId
    ensures Invariant(s) ==> Invariant(r.0)
    ensures forall t: Timestamp :: StampedBy(s, t) && t <= now ==> StampedBy(r.0, now)
  {
    match Get(s.blogPosts, id)
    case None => (s, None)
    case Some(post) =>
      var updated := MergeUpdate(post, id, updates, now);
      (s.(blogPosts := Set(s.blogPosts, id, updated)), Some(updated))
  }

  /** `deletePost`: removes the entry under `id` and reports whether there was one. */
  function DeletePostStep(s: Store, id: int): (r: (Store, bool))
    ensures r.1 <==> id in s.blogPosts.entries
    ensures Get(r.0.blogPosts, id) == None
    ensures forall k :: k != id ==> Get(r.0.blogPosts, k) == Get(s.blogPosts, k)
    ensures r.0.users == s.users && r.0.currentUserId == s.currentUserId && r.0.currentPostId == s.currentPostId
    ensures Invariant(s) ==> Invariant(r.0)
    ensures forall t: Timestamp :: StampedBy(s, t) ==> StampedBy(r.0, t)
  {
    var (posts, removed) := Delete(s.blogPosts, id);
    (s.(blogPosts := posts), removed)
  }

  /** Deleting the same id twice: the second call finds nothing and changes nothing. */
  lemma DeleteTwice(s: Store, id: int)
    ensures var (s1, first) := DeletePostStep(s, id);
            var (s2, second) := DeletePostStep(s1, id);
            first == (id in s.blogPosts.entries) && !second && s2.blogPosts.entries == s1.blogPosts.entries
  {
  }

  // ---------------------------------------------------------------- histories

  /** One call on the store's write interface. */
  datatype Call =
    | CreateUser(user: InsertUser)
    | CreatePost(post: InsertPost, now: Timestamp)
    | UpdatePost(id: int, updates: PostPatch, now: Timestamp)
    | DeletePost(id: int)

  function Apply(s: Store, c: Call): Store {
    match c
    case CreateUser(u) => CreateUserStep(s, u).0
    case CreatePost(p, now) => CreatePostStep(s, p, now).0
    case UpdatePost(id, u, now) => UpdatePostStep(s, id, u, now).0
    case DeletePost(id) => DeletePostStep(s, id).0
  }

  function Run(s: Store, calls: seq<Call>): Store
    decreases |calls|
  {
    if calls == [] then s else Run(Apply(s, calls[0]), calls[1..])
  }

  /** Any history of calls keeps the invariant and never moves a counter backwards. */
  lemma {:induction false} RunKeepsInvariant(s: Store, calls: seq<Call>)
    requires Invariant(s)
    ensures Invariant(Run(s, calls))
    ensures Run(s, calls).currentPostId >= s.currentPostId
    ensures Run(s, calls).currentUserId >= s.currentUserId
    decreases |calls|
  {
    if calls != [] {
      RunKeepsInvariant(Apply(s, calls[0]), calls[1..]);
    }
  }

  /**
   * A post id, once handed out, is never handed out again: whatever calls follow,
   * including deleting that post, the next post created gets a larger id.
   */
  lemma PostIdsNeverReissued(s: Store, issued: int, calls: seq<Call>, ins: InsertPost, now: Timestamp)
    requires Invariant(s) && issued < s.currentPostId
    ensures CreatePostStep(Run(s, calls), ins, now).1.id > issued
  {
    RunKeepsInvariant(s, calls);
  }

  /** Likewise for user ids. */
  lemma UserIdsNeverReissued(s: Store, issued: int, calls: seq<Call>, ins: InsertUser)
    requires Invariant(s) && issued < s.currentUserId
    ensures CreateUserStep(Run(s, calls), ins).1.id > issued
  {
    RunKeepsInvariant(s, calls);
  }

  /** No user in insertion order has `name` exactly when no stored user has it. */
  lemma UsernameAbsent(m: OrderedMap<User>, name: string)
    requires Wf(m)
    ensures FirstWithUsername(Values(m), name).None? <==> forall k :: k in m.entries ==> m.entries[k].username != name
  {
    var vals := Values(m);
    if FirstWithUsername(vals, name).Some? {
      var i :| 0 <= i < |vals| && vals[i].username == name;
      assert m.order[i] in m.entries;
    } else {
      forall k | k in m.entries ensures m.entries[k].username != name {
        assert k in m.order;
        var i :| 0 <= i < |m.order| && m.order[i] == k;
        assert vals[i] == m.entries[k];
      }
    }
  }

  /**
   * `createUser` keeps usernames unique exactly when no stored user already has
   * the new username; the store itself never checks this.
   */
  lemma {:induction false} CreateUserUniqueness(s: Store, ins: InsertUser)
    requires Invariant(s)
    ensures UsernamesUnique(CreateUserStep(s, ins).0.users.entries)
        <==> UsernamesUnique(s.users.entries) && FirstWithUsername(Values(s.users), ins.username).None?
  {
    var (s', u) := CreateUserStep(s, ins);
    UsernameAbsent(s.users, ins.username);
    var before, after := s.users.entries, s'.users.entries;
    assert after == before[u.id := u] && u.id !in before;
    if k :| k in before && before[k].username == ins.username {
      assert after[k].username == after[u.id].username;
    } else if UsernamesUnique(before) {
      forall a, b | a in after && b in after && a != b ensures after[a].username != after[b].username {
      }
    }
    if UsernamesUnique(after) {
      forall a, b | a in before && b in before && a != b ensures before[a].username != before[b].username {
        assert after[a] == before[a] && after[b] == before[b];
      }
    }
  }

  // ---------------------------------------------------------------- listing

  /** The timestamp `getAllPosts` sorts by: `createdAt`, or 0 when it is missing. */
  function CreatedKey(p: Post): (k: Timestamp)
    ensures p.createdAt.Some? ==> k == p.createdAt.value
    ensures p.createdAt.None? ==> k == 0
  {
    p.createdAt.GetOr(0)
  }

  /**
   * `a` comes before `b` in the listing: newer first, and among equal creation
   * times the one inserted first, which in this store is the smaller id.
   */
  predicate ListedBefore(a: Post, b: Post)
    ensures ListedBefore(a, b) ==> CreatedKey(a) >= CreatedKey(b)
    ensures CreatedKey(a) > CreatedKey(b) ==> ListedBefore(a, b)
    ensures CreatedKey(a) == CreatedKey(b) ==> (ListedBefore(a, b) <==> a.id < b.id)
  {
    CreatedKey(a) > CreatedKey(b) || (CreatedKey(a) == CreatedKey(b) && a.id < b.id)
  }

  predicate NewestFirst(r: seq<Post>) {
    forall i, j :: 0 <= i < j < |r| ==> ListedBefore(r[i], r[j])
  }

  /** `r` is what `getAllPosts` returns for `s`: all stored posts, each once, newest first. */
  predicate IsListing(s: Store, r: seq<Post>)
    requires Wf(s.blogPosts)
  {
    NewestFirst(r) && multiset(r) == multiset(Values(s.blogPosts))
  }

  /** The listing holds exactly as many posts as the store. */
  lemma ListingLength(s: Store, r: seq<Post>)
    requires Wf(s.blogPosts) && IsListing(s, r)
    ensures |r| == |s.blogPosts.entries|
  {
    assert |multiset(r)| == |multiset(Values(s.blogPosts))|;
    OrderCoversEntries(s.blogPosts);
  }

  /** No post is listed both before and after another. */
  lemma ListedBeforeAsymmetric(a: Post, b: Post)
    ensures !(ListedBefore(a, b) && ListedBefore(b, a))
  {
  }

  lemma MultisetTail(r: seq<Post>)
    requires r != []
    ensures multiset(r[1..]) == multiset(r) - multiset{r[0]}
  {
    assert r == [r[0]] + r[1..];
  }

  /** The head of a newest-first list is the one post listed before all the others in it. */
  lemma HeadListedFirst(r: seq<Post>, x: Post)
    requires NewestFirst(r) && x in r
    ensures x == r[0] || ListedBefore(r[0], x)
  {
    var i :| 0 <= i < |r| && r[i] == x;
  }

  /** The listing is fully determined: two newest-first orderings of the same posts are equal. */
  lemma {:induction false} NewestFirstUnique(r1: seq<Post>, r2: seq<Post>)
    requires NewestFirst(r1) && NewestFirst(r2) && multiset(r1) == multiset(r2)
    ensures r1 == r2
    decreases |r1|
  {
    if r1 != [] {
      assert r1[0] in multiset(r2) && r2 != [] && r2[0] in multiset(r1);
      ListedBeforeAsymmetric(r1[0], r2[0]);
      HeadListedFirst(r1, r2[0]);
      HeadListedFirst(r2, r1[0]);
      assert r1[0] == r2[0];
      MultisetTail(r1);
      MultisetTail(r2);
      NewestFirstUnique(r1[1..], r2[1..]);
      assert r1 == [r1[0]] + r1[1..] && r2 == [r2[0]] + r2[1..];
    }
  }

  /** In a newest-first list, creation times never increase. */
  lemma NewestFirstKeys(r: seq<Post>, a: int, b: int)
    requires NewestFirst(r) && 0 <= a <= b < |r|
    ensures CreatedKey(r[a]) >= CreatedKey(r[b])
  {
    if a < b { assert ListedBefore(r[a], r[b]); }
  }

  /**
   * Placing `post` at position `j` of a newest-first list keeps it newest first
   * when everything before `j` was created no earlier, everything from `j` on
   * strictly earlier, and every id in the list is smaller than `post`'s.
   */
  lemma {:induction false} InsertAtKeepsOrder(sorted: seq<Post>, post: Post, j: int)
    requires NewestFirst(sorted) && 0 <= j <= |sorted|
    requires forall k :: 0 <= k < |sorted| ==> sorted[k].id < post.id
    requires forall k :: 0 <= k < j ==> CreatedKey(sorted[k]) >= CreatedKey(post)
    requires forall k :: j <= k < |sorted| ==> CreatedKey(sorted[k]) < CreatedKey(post)
    ensures NewestFirst(sorted[..j] + [post] + sorted[j..])
  {
    var r := sorted[..j] + [post] + sorted[j..];
    assert forall x :: 0 <= x < j ==> r[x] == sorted[x];
    assert r[j] == post;
    assert forall x :: j < x < |r| ==> r[x] == sorted[x - 1];
    forall a, b | 0 <= a < b < |r| ensures ListedBefore(r[a], r[b]) {
      if b < j {
        assert ListedBefore(sorted[a], sorted[b]);
      } else if b == j {
        assert ListedBefore(sorted[a], post);
      } else if a < j {
        assert ListedBefore(sorted[a], sorted[b - 1]);
      } else if a == j {
        assert ListedBefore(post, sorted[b - 1]);
      } else {
        assert ListedBefore(sorted[a - 1], sorted[b - 1]);
      }
    }
  }

  /**
   * Inserts `post` into a newest-first list of posts with smaller ids: it goes
   * after every post created at or after it and before every older one, where a
   * stable sort puts the later-inserted of two posts with equal keys.
   */
  method InsertNewestFirst(sorted: seq<Post>, post: Post) returns (r: seq<Post>)
    requires NewestFirst(sorted)
    requires forall k :: 0 <= k < |sorted| ==> sorted[k].id < post.id
    ensures NewestFirst(r)
    ensures multiset(r) == multiset(sorted) + multiset{post}
  {
    var j := |sorted|;
    while j > 0 && CreatedKey(sorted[j - 1]) < CreatedKey(post)
      invariant 0 <= j <= |sorted|
      invariant forall k :: j <= k < |sorted| ==> CreatedKey(sorted[k]) < CreatedKey(post)
    {
      j := j - 1;
    }
    forall k | 0 <= k < j ensures CreatedKey(sorted[k]) >= CreatedKey(post) {
      NewestFirstKeys(sorted, k, j - 1);
    }
    InsertAtKeepsOrder(sorted, post, j);
    r := sorted[..j] + [post] + sorted[j..];
    assert sorted == sorted[..j] + sorted[j..];
  }

  // ---------------------------------------------------------------- seeding

  /** The six posts the store creates when it is constructed, in creation order. */
  function SeedPosts(): (r: seq<InsertPost>)
    ensures |r| == 6
  {
    [Seed.Post1, Seed.Post2, Seed.Post3, Seed.Post4, Seed.Post5, Seed.Post6]
  }

  /**
   * The store after the constructor has created the first `n` of the posts
   * `seeds`, the i-th stamped with the clock reading `times[i]`.
   */
  function Seeded(seeds: seq<InsertPost>, times: seq<Timestamp>, n: nat): Store
    requires |seeds| == |times| && n <= |seeds|
  {
    if n == 0 then Fresh
    else CreatePostStep(Seeded(seeds, times, n - 1), seeds[n - 1], times[n - 1]).0
  }

  /**
   * The shape of the store after `n` seed posts: the invariant holds, the posts
   * are listed under ids 1 to n in that order, the next post id is n + 1, and
   * there are still no users with the next user id 1.
   */
  predicate SeedShape(s: Store, n: nat) {
    && Invariant(s)
    && s.users == Empty() && s.currentUserId == 1
    && s.currentPostId == n + 1
    && |s.blogPosts.order| == n
    && (forall i :: 0 <= i < n ==> s.blogPosts.order[i] == i + 1)
  }

  /** Creating one more post extends the seed shape by one. */
  lemma CreatePostExtendsShape(s: Store, ins: InsertPost, now: Timestamp, n: nat)
    requires SeedShape(s, n)
    ensures SeedShape(CreatePostStep(s, ins, now).0, n + 1)
  {
    var next := CreatePostStep(s, ins, now).0;
    assert next.blogPosts.order == s.blogPosts.order + [n + 1];
  }

  /** Every prefix of the seeding has the seed shape. */
  lemma {:induction false} SeededShape(seeds: seq<InsertPost>, times: seq<Timestamp>, n: nat)
    requires |seeds| == |times| && n <= |seeds|
    ensures SeedShape(Seeded(seeds, times, n), n)
    decreases n
  {
    if n > 0 {
      SeededShape(seeds, times, n - 1);
      CreatePostExtendsShape(Seeded(seeds, times, n - 1), seeds[n - 1], times[n - 1], n - 1);
    } else {
      assert Invariant(Fresh);
    }
  }

  /**
   * The posts stored after `n` seed posts: seed post i is stored verbatim under
   * id i + 1, created and updated at its own clock reading, and no other id is used.
   */
  ghost predicate SeedEntries(s: Store, seeds: seq<InsertPost>, times: seq<Timestamp>, n: nat)
    requires |seeds| == |times| && n <= |seeds|
  {
    && (forall i :: 0 <= i < n ==>
          Get(s.blogPosts, i + 1) == Some(WithServerFields(seeds[i], i + 1, Some(times[i]), Some(times[i]))))
    && (forall k :: (k < 1 || n < k) ==> Get(s.blogPosts, k).None?)
  }

  /** Creating seed post n under id n + 1 extends the stored seed posts by one. */
  lemma CreatePostExtendsEntries(s: Store, seeds: seq<InsertPost>, times: seq<Timestamp>, n: nat)
    requires |seeds| == |times| && n < |seeds|
    requires SeedEntries(s, seeds, times, n) && s.currentPostId == n + 1
    ensures SeedEntries(CreatePostStep(s, seeds[n], times[n]).0, seeds, times, n + 1)
  {
  }

  /** Every prefix of the seeding stores exactly the seed posts created so far. */
  lemma {:induction false} SeededPosts(seeds: seq<InsertPost>, times: seq<Timestamp>, n: nat)
    requires |seeds| == |times| && n <= |seeds|
    ensures SeedEntries(Seeded(seeds, times, n), seeds, times, n)
    decreases n
  {
    if n > 0 {
      SeededPosts(seeds, times, n - 1);
      SeededShape(seeds, times, n - 1);
      CreatePostExtendsEntries(Seeded(seeds, times, n - 1), seeds, times, n - 1);
    }
  }

  // ---------------------------------------------------------------- the store object

  class MemStorage {
    var users: OrderedMap<User>
    var blogPosts: OrderedMap<Post>
    var currentUserId: int
    var currentPostId: int

    function State(): Store
      reads this
    {
      Store(users, blogPosts, currentUserId, currentPostId)
    }

    predicate Valid()
      reads this
    {
      Invariant(State())
    }

    /**
     * Starts empty with both counters at 1, then creates the six seed posts,
     * reading the clock once per post (`seedTimes`).
     */
    constructor (seedTimes: seq<Timestamp>)
      requires |seedTimes| == 6
      ensures Valid()
      ensures State() == Seeded(SeedPosts(), seedTimes, 6)
      ensures SeedShape(State(), 6) && SeedEntries(State(), SeedPosts(), seedTimes, 6)
    {
      users := Empty();
      blogPosts := Empty();
      currentUserId := 1;
      currentPostId := 1;
      new;
      var seeds := SeedPosts();
      var p1 := CreatePost(seeds[0], seedTimes[0]);
      assert State() == Seeded(seeds, seedTimes, 1);
      var p2 := CreatePost(seeds[1], seedTimes[1]);
      assert State() == Seeded(seeds, seedTimes, 2);
      var p3 := CreatePost(seeds[2], seedTimes[2]);
      assert State() == Seeded(seeds, seedTimes, 3);
      var p4 := CreatePost(seeds[3], seedTimes[3]);
      assert State() == Seeded(seeds, seedTimes, 4);
      var p5 := CreatePost(seeds[4], seedTimes[4]);
      assert State() == Seeded(seeds, seedTimes, 5);
      var p6 := CreatePost(seeds[5], seedTimes[5]);
      SeededShape(seeds, seedTimes, 6);
      SeededPosts(seeds, seedTimes, 6);
    }

    /** `getUser`: the user stored under `id`, or nothing. */
    method GetUser(id: int) returns (r: Option<User>)
      ensures r.Some? <==> id in users.entries
      ensures r.Some? ==> r.value == users.entries[id]
    {
      r := Get(users, id);
    }

    /** `getUserByUsername`: the first user in insertion order with exactly this username. */
    method GetUserByUsername(username: string) returns (r: Option<User>)
      requires Valid()
      ensures r == FirstWithUsername(Values(users), username)
    {
      var all := Values(users);
      var i := 0;
      while i < |all| && all[i].username != username
        invariant 0 <= i <= |all|
        invariant FirstWithUsername(all, username) == FirstWithUsername(all[i..], username)
      {
        assert all[i..][1..] == all[i + 1..];
        i := i + 1;
      }
      if i < |all| {
        r := Some(all[i]);
      } else {
        r := None;
      }
    }

    /** `createUser`. */
    method CreateUser(insertUser: InsertUser) returns (user: User)
      requires Valid()
      modifies this
      ensures Valid()
      ensures (State(), user) == CreateUserStep(old(State()), insertUser)
    {
      var id := currentUserId;
      currentUserId := currentUserId + 1;
      user := WithUserId(insertUser, id);
      users := Set(users, id, user);
    }

    /** `getAllPosts`: a snapshot of every stored post, newest first. */
    method GetAllPosts() returns (r: seq<Post>)
      requires Valid()
      ensures IsListing(State(), r)
      ensures |r| == |blogPosts.entries|
    {
      var all := Values(blogPosts);
      forall a, b | 0 <= a < b < |all| ensures all[a].id < all[b].id {
        assert blogPosts.order[a] in blogPosts.entries && blogPosts.order[b] in blogPosts.entries;
      }
      r := [];
      var i := 0;
      while i < |all|
        invariant 0 <= i <= |all|
        invariant NewestFirst(r)
        invariant multiset(r) == multiset(all[..i])
      {
        forall k | 0 <= k < |r| ensures r[k].id < all[i].id {
          assert r[k] in multiset(all[..i]);
        }
        r := InsertNewestFirst(r, all[i]);
        assert all[..i + 1] == all[..i] + [all[i]];
        i := i + 1;
      }
      assert all[..i] == all;
      ListingLength(State(), r);
    }

    /** `getPostById`: the post stored under `id`, or nothing if it was never created or was deleted. */
    method GetPostById(id: int) returns (r: Option<Post>)
      ensures r.Some? <==> id in blogPosts.entries
      ensures r.Some? ==> r.value == blogPosts.entries[id]
    {
      r := Get(blogPosts, id);
    }

    /** `createPost`, stamped with the clock reading `now`. */
    method CreatePost(post: InsertPost, now: Timestamp) returns (newPost: Post)
      requires Valid()
      modifies this
      ensures Valid()
      ensures (State(), newPost) == CreatePostStep(old(State()), post, now)
    {
      var id := currentPostId;
      currentPostId := currentPostId + 1;
      newPost := WithServerFields(post, id, Some(now), Some(now));
      blogPosts := Set(blogPosts, id, newPost);
    }

    /** `updatePost`, stamped with the clock reading `now`. */
    method UpdatePost(id: int, updates: PostPatch, now: Timestamp) returns (r: Option<Post>)
      requires Valid()
      modifies this
      ensures Valid()
      ensures (State(), r) == UpdatePostStep(old(State()), id, updates, now)
    {
      var post := Get(blogPosts, id);
      if post.None? {
        return None;
      }
      var updatedPost := MergeUpdate(post.value, id, updates, now);
      blogPosts := Set(blogPosts, id, updatedPost);
      r := Some(updatedPost);
    }

    /** `deletePost`. */
    method DeletePost(id: int) returns (removed: bool)
      requires Valid()
      modifies this
      ensures Valid()
      ensures (State(), removed) == DeletePostStep(old(State()), id)
    {
      var (rest, had) := Delete(blogPosts, id);
      blogPosts := rest;
      removed := had;
    }
  }
}
