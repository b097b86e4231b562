/** The store's state object with its getters and its mutations. Each
    mutation changes its target in place and is recorded, in commit order, in
    the ghost `trace` that the actions also append their remote calls to. */
module AppStore {
  import opened Wrappers
  import opened Posts
  import opened Recency
  import opened AuthProfile

  /** `auth.status`: 'not', 'pending' or 'signin'. */
  datatype AuthStatus = NotSignedIn | Pending | SignIn

  datatype Auth = Auth(status: AuthStatus, person: Option<Person>)

  /** A committed mutation with its payload. */
  datatype Mutation =
    | SetAuthPerson(person: Option<Person>)
    | SetAuthStatus(status: AuthStatus)
    | SetPosts(posts: seq<Post>)
    | UpdatePostForm(attr: string, val: string)
    | AddPost(post: Post)
    | UpdatePost(post: Post)
    | DeletePost(post: Post)

  /** A request issued through the datastore client. */
  datatype RemoteCall =
    | CollectionGet(dataset: string)
    | CollectionAdd(dataset: string, fields: PostFields)
    | DocSet(dataset: string, id: string, post: Post)
    | DocDelete(dataset: string, id: string)

  datatype Event = Committed(mutation: Mutation) | Called(call: RemoteCall)

  /** The dataset the posts live in on the server. */
  const PostsDataset: string := "posts"

  const EmptyPostForm: map<string, string> := map["title" := "", "body" := ""]

  class Store {
    /** The draft form; `updatePostForm` may set any attribute on it. */
    var postForm: map<string, string>
    var auth: Auth
    var posts: seq<Post>
    /** Mutations committed and remote calls issued, oldest first. */
    ghost var trace: seq<Event>

    /** The draft form always has the two fields `createPost` reads. */
    ghost predicate Valid()
      reads this
    {
      "title" in postForm && "body" in postForm
    }

    constructor ()
      ensures Valid()
      ensures postForm == EmptyPostForm && auth == Auth(NotSignedIn, None) && posts == []
      ensures trace == []
    {
      postForm := EmptyPostForm;
      auth := Auth(NotSignedIn, None);
      posts := [];
      trace := [];
    }

    /** The `isAuthenticated` getter. */
    function IsAuthenticated(): (b: bool)
      reads this
      ensures b <==> auth.status == SignIn
    {
      auth.status == SignIn
    }

    /** The `authUser` getter; it throws until a person with a profile is set. */
    function AuthUser(): (r: Result<UserView, Fault>)
      reads this
      ensures r.Failure? <==> auth.person.None? || auth.person.value.profile.None?
      ensures r.Success? ==> r.value.name != "" && r.value.description != "" && r.value.imageUrl != ""
    {
      var r := AuthProfile.AuthUser(auth.person);
      if r.Success? then AuthUserNeverBlank(auth.person); r else r
    }

    /** The `findPost` getter: the first post with identifier `id`, if any. */
    function FindPost(id: string): (r: Option<Post>)
      reads this
      ensures r.None? <==> !HasId(posts, id)
      ensures r.Some? ==> exists i :: IsFirstWithId(posts, id, i) && r.value == posts[i]
    {
      Find(posts, id)
    }

    /** The `recentPosts` getter: sorts `posts` in place, newest first, and
        returns the sorted list itself. */
    method RecentPosts() returns (r: seq<Post>)
      requires Valid()
      modifies this
      ensures Valid()
      ensures posts == SortNewestFirst(old(posts)) && r == posts
      ensures NewestFirst(r) && multiset(r) == multiset(old(posts)) && SameTies(old(posts), r)
      ensures postForm == old(postForm) && auth == old(auth) && trace == old(trace)
    {
      SortNewestFirstCorrect(posts);
      SortNewestFirstStable(posts);
      posts := SortNewestFirst(posts);
      r := posts;
    }

    method SetAuthPerson(person: Option<Person>)
      requires Valid()
      modifies this
      ensures Valid()
      ensures auth == old(auth).(person := person)
      ensures postForm == old(postForm) && posts == old(posts)
      ensures trace == old(trace) + [Committed(Mutation.SetAuthPerson(person))]
    {
      auth := auth.(person := person);
      trace := trace + [Committed(Mutation.SetAuthPerson(person))];
    }

    method SetAuthStatus(status: AuthStatus)
      requires Valid()
      modifies this
      ensures Valid()
      ensures auth == old(auth).(status := status)
      ensures IsAuthenticated() <==> status == SignIn
      ensures postForm == old(postForm) && posts == old(posts)
      ensures trace == old(trace) + [Committed(Mutation.SetAuthStatus(status))]
    {
      auth := auth.(status := status);
      trace := trace + [Committed(Mutation.SetAuthStatus(status))];
    }

    method SetPosts(ps: seq<Post>)
      requires Valid()
      modifies this
      ensures Valid()
      ensures posts == ps
      ensures postForm == old(postForm) && auth == old(auth)
      ensures trace == old(trace) + [Committed(Mutation.SetPosts(ps))]
    {
      posts := ps;
      trace := trace + [Committed(Mutation.SetPosts(ps))];
    }

    /** Sets one attribute of the draft form, adding it when it is new. */
    method UpdatePostForm(attr: string, val: string)
      requires Valid()
      modifies this
      ensures Valid()
      ensures attr in postForm && postForm[attr] == val
      ensures forall a :: a in old(postForm) && a != attr ==> a in postForm && postForm[a] == old(postForm)[a]
      ensures postForm.Keys == old(postForm).Keys + {attr}
      ensures auth == old(auth) && posts == old(posts)
      ensures trace == old(trace) + [Committed(Mutation.UpdatePostForm(attr, val))]
    {
      postForm := postForm[attr := val];
      trace := trace + [Committed(Mutation.UpdatePostForm(attr, val))];
    }

    /** Appends `post` after every existing post. */
    method AddPost(post: Post)
      requires Valid()
      modifies this
      ensures Valid()
      ensures |posts| == |old(posts)| + 1 && posts[|posts| - 1] == post
      ensures posts[..|old(posts)|] == old(posts)
      ensures postForm == old(postForm) && auth == old(auth)
      ensures trace == old(trace) + [Committed(Mutation.AddPost(post))]
    {
      posts := posts + [post];
      trace := trace + [Committed(Mutation.AddPost(post))];
    }

    /** Splices `post` over the first post with the same identifier (the last
        post when there is none; see `ReplaceFirstPresent`, `ReplaceFirstAbsent`). */
    method UpdatePost(post: Post)
      requires Valid()
      modifies this
      ensures Valid()
      ensures posts == ReplaceFirst(old(posts), post)
      ensures old(posts) != [] ==> |posts| == |old(posts)|
      ensures postForm == old(postForm) && auth == old(auth)
      ensures trace == old(trace) + [Committed(Mutation.UpdatePost(post))]
    {
      var idx := FindIndex(posts, post.id);
      posts := Splice(posts, idx, 1, [post]);
      trace := trace + [Committed(Mutation.UpdatePost(post))];
    }

    /** Splices out the first post with the identifier of `post` (the last
        post when there is none; see `RemoveFirstPresent`, `RemoveFirstAbsent`). */
    method DeletePost(post: Post)
      requires Valid()
      modifies this
      ensures Valid()
      ensures posts == RemoveFirst(old(posts), post.id)
      ensures old(posts) != [] ==> |posts| == |old(posts)| - 1
      ensures postForm == old(postForm) && auth == old(auth)
      ensures trace == old(trace) + [Committed(Mutation.DeletePost(post))]
    {
      var idx := FindIndex(posts, post.id);
      posts := Splice(posts, idx, 1, []);
      trace := trace + [Committed(Mutation.DeletePost(post))];
    }
  }
}
