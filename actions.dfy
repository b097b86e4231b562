/** The store's actions, reduced to their local effect. The server is not
    modelled: the listing `loadPosts` receives and the record `add` returns
    are parameters, the clock's ISO timestamp is the parameter `now`, and the
    remote writes are only recorded in the trace, in the order issued. */
module StoreActions {
  import opened Wrappers
  import opened Posts
  import opened AppStore

  /** The record `createPost` sends: the draft's title and body, both
      timestamps set to the same instant. */
  function DraftFields(form: map<string, string>, now: string): (f: PostFields)
    requires "title" in form && "body" in form
    ensures f.title == form["title"] && f.body == form["body"]
    ensures f.createdAt == now && f.updatedAt == now
  {
    PostFields(form["title"], form["body"], now, now)
  }

  /** `loadPosts`: fetches the listing, then replaces the local list with it. */
  method LoadPosts(store: Store, listing: seq<Post>)
    requires store.Valid()
    modifies store
    ensures store.Valid()
    ensures store.posts == listing
    ensures store.postForm == old(store.postForm) && store.auth == old(store.auth)
    ensures store.trace == old(store.trace) + [Called(CollectionGet(PostsDataset)), Committed(SetPosts(listing))]
  {
    store.trace := store.trace + [Called(CollectionGet(PostsDataset))];
    store.SetPosts(listing);
  }

  /** `createPost`: sends the draft with the timestamp `now`, waits for the
      stored record `add(fields)` and appends it to the local list. */
  method CreatePost(store: Store, now: string, add: PostFields -> Post) returns (post: Post)
    requires store.Valid()
    modifies store
    ensures store.Valid()
    ensures var fields := DraftFields(old(store.postForm), now);
      && post == add(fields)
      && store.posts == old(store.posts) + [post]
      && store.trace == old(store.trace) + [Called(CollectionAdd(PostsDataset, fields)), Committed(AddPost(post))]
    ensures store.postForm == old(store.postForm) && store.auth == old(store.auth)
  {
    var fields := DraftFields(store.postForm, now);
    store.trace := store.trace + [Called(CollectionAdd(PostsDataset, fields))];
    post := add(fields);
    store.AddPost(post);
  }

  /** `deletePost`: removes the post locally first, then issues the remote
      delete without waiting for it, so the local removal stands whatever the
      server answers. */
  method DeletePost(store: Store, post: Post)
    requires store.Valid()
    modifies store
    ensures store.Valid()
    ensures store.posts == RemoveFirst(old(store.posts), post.id)
    ensures store.postForm == old(store.postForm) && store.auth == old(store.auth)
    ensures store.trace == old(store.trace) + [Committed(Mutation.DeletePost(post)), Called(DocDelete(PostsDataset, post.id))]
  {
    store.DeletePost(post);
    ghost var removed := store.posts;
    store.trace := store.trace + [Called(DocDelete(PostsDataset, post.id))];
    assert store.posts == removed;
  }

  /** `updatePost`: stamps `createdAt` (not `updatedAt`) with `now`, replaces
      the local entry, then issues the remote write without waiting for it.
      The stamped record, which the caller's object becomes, is returned; the
      second ensures spells out that only `createdAt` is stamped, so
      `updatedAt` and the identifier stay as they were. */
  method UpdatePost(store: Store, post: Post, now: string) returns (stamped: Post)
    requires store.Valid()
    modifies store
    ensures store.Valid()
    ensures stamped == post.(createdAt := now)
    ensures stamped.updatedAt == post.updatedAt && stamped.id == post.id
    ensures store.posts == ReplaceFirst(old(store.posts), stamped)
    ensures store.postForm == old(store.postForm) && store.auth == old(store.auth)
    ensures store.trace == old(store.trace) + [Committed(Mutation.UpdatePost(stamped)), Called(DocSet(PostsDataset, stamped.id, stamped))]
  {
    stamped := post.(createdAt := now);
    store.UpdatePost(stamped);
    ghost var replaced := store.posts;
    store.trace := store.trace + [Called(DocSet(PostsDataset, stamped.id, stamped))];
    assert store.posts == replaced;
  }

  /** A fresh store whose draft is filled in and published holds exactly the
      record the server returned for that draft, and `findPost` finds it. */
  method PublishDraft(title: string, body: string, now: string, add: PostFields -> Post)
    returns (post: Post, posts: seq<Post>, found: Option<Post>)
    ensures post == add(PostFields(title, body, now, now))
    ensures posts == [post]
    ensures found == Some(post)
  {
    var store := new Store();
    store.UpdatePostForm("title", title);
    store.UpdatePostForm("body", body);
    post := CreatePost(store, now, add);
    posts := store.posts;
    found := store.FindPost(post.id);
    assert IsFirstWithId(store.posts, post.id, 0);
  }
}
