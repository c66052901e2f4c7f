/** PostService as code (internal/service/post_service.go): cache, tables and bloom filter updated in
    place, each method proved to be the corresponding operation of PostCache. */
module PostService {
  import opened Model
  import opened PostCache
  import Bloom

  class Service {
    var now: int
    var posts: map<int, Post>
    var likes: set<LikeRow>
    var users: map<int, User>
    var nextPost: int
    const cached: bool
    var postCache: map<int, Entry<Post>>
    var userCache: map<int, Entry<User>>
    const filtered: bool
    var filter: Bloom.Filter
    ghost var missed: map<int, int>

    constructor (cached: bool, filtered: bool, filter: Bloom.Filter)
      requires filter.Valid() && filter.added == []
      ensures Valid() && View() == Start(cached, filtered, filter.m, filter.k)
      ensures this.filter == filter
    {
      this.cached, this.filtered, this.filter := cached, filtered, filter;
      now, nextPost, posts, likes, users := 0, 1, map[], {}, map[];
      postCache, userCache, missed := map[], map[], map[];
    }

    ghost predicate Valid()
      reads this, filter, filter.bits
    {
      filter.Valid()
    }

    ghost function View(): World
      reads this, filter
    {
      World(now, posts, likes, users, nextPost, cached, postCache, userCache,
            filtered, filter.added, filter.m, filter.k, missed)
    }

    /** getUserCached. */
    method GetUserCached(uid: int, f: Faults) returns (r: Result<Option<User>>)
      modifies this`userCache
      ensures var hit := cached && f.readUser && uid in old(userCache) && now < old(userCache)[uid].dies;
              var row := if uid in users then Some(users[uid]) else None;
              var fresh_ := Entry(row, now, now + if row.Some? then 600_000 else 30_000);
              && r == (if !hit then Ok(row)
                       else if old(userCache)[uid].value.None? then Err(NotFound) else Ok(old(userCache)[uid].value))
              && userCache == if !hit && cached && f.setUser then old(userCache)[uid := fresh_] else old(userCache)
      ensures (r, View()) == PostCache.GetUser(old(View()), uid, f)
    {
      if cached && f.readUser && uid in userCache && now < userCache[uid].dies {
        var env := userCache[uid];
        if env.value.None? {
          return Err(NotFound);
        }
        return Ok(env.value);
      }
      var u := if uid in users then Some(users[uid]) else None;
      if cached && f.setUser {
        var ttl := if u.Some? then POST_TTL else NIL_TTL;
        userCache := userCache[uid := Entry(u, now, now + ttl)];
      }
      r := Ok(u);
    }

    method ViewOf(p: Post, viewer: int, f: Faults) returns (r: Result<PostView>)
      modifies this`userCache
      ensures r.Ok? ==>
                && r.value.id == p.id && r.value.userID == p.userID && r.value.content == p.content
                && r.value.likeCount == p.likeCount && r.value.commentCount == p.commentCount
                && r.value.createdAt == p.createdAt && (r.value.liked <==> viewer > 0 && LikeRow(p.id, viewer) in likes)
      ensures (r, View()) == PostCache.Assemble(old(View()), p, viewer, f)
    {
      var author := GetUserCached(p.userID, f);
      if author.Err? {
        return Err(author.error);
      }
      r := Ok(NewPostView(p, author.value, viewer > 0 && LikeRow(p.id, viewer) in likes));
    }

    /** Get: cache, then bloom gate, then the table. */
    method Get(viewer: int, id: int, f: Faults) returns (r: Result<PostView>)
      requires Valid()
      modifies this`postCache, this`userCache
      ensures Valid()
      ensures (r, View()) == PostCache.Get(old(View()), viewer, id, f)
    {
      if cached && f.readPost && id in postCache && now < postCache[id].dies {
        var env := postCache[id];
        if env.value.None? {
          return Err(NotFound);
        }
        r := ViewOf(env.value.value, viewer, f);
        return;
      }
      r := Miss(viewer, id, f);
    }

    /** The cache had nothing: ask the bloom filter, then the table, and fill the cache. */
    method Miss(viewer: int, id: int, f: Faults) returns (r: Result<PostView>)
      requires Valid() && !PostHit(View(), id, f.readPost)
      modifies this`postCache, this`userCache
      ensures Valid()
      ensures (r, View()) == PostCache.Get(old(View()), viewer, id, f)
    {
      var passes := true;
      if filtered {
        passes := filter.Test(IdBytes(id));
      }
      assert passes <==> !RuledOut(View(), id);
      if !passes {
        SetPostEntry(id, None, f.setPost);
        return Err(NotFound);
      }
      var p := if id in posts && !posts[id].deleted then Some(posts[id]) else None;
      SetPostEntry(id, p, f.setPost);
      if p.None? {
        return Err(NotFound);
      }
      r := ViewOf(p.value, viewer, f);
    }

    method SetPostEntry(id: int, p: Option<Post>, ok: bool)
      modifies this`postCache
      ensures postCache == if cached && ok
                           then old(postCache)[id := Entry(p, now, now + if p.Some? then 600_000 else 30_000)]
                           else old(postCache)
      ensures View() == PostCache.SetPost(old(View()), id, p, ok)
    {
      if cached && ok {
        var ttl := if p.Some? then POST_TTL else NIL_TTL;
        postCache := postCache[id := Entry(p, now, now + ttl)];
      }
    }

    /** Start-up: a new filter, loaded with the live post ids. */
    method Restart()
      requires Valid()
      modifies this`filter
      ensures filter.m == old(filter.m) && filter.k == old(filter.k)
      ensures forall key :: key in filter.added <==>
                exists id :: 1 <= id < nextPost && id in posts && !posts[id].deleted && key == IdBytes(id)
      ensures Valid() && fresh(filter) && View() == PostCache.Restart(old(View()))
    {
      var loaded := new Bloom.Filter(filter.m, filter.k);
      var id := 1;
      while id < nextPost
        invariant 1 <= id && (id <= nextPost || id == 1)
        invariant loaded.Valid() && fresh(loaded) && fresh(loaded.bits)
        invariant loaded.m == filter.m && loaded.k == filter.k
        invariant loaded.added == LiveKeys(posts, 1, id)
      {
        if id in posts && !posts[id].deleted {
          loaded.Add(IdBytes(id));
        }
        id := id + 1;
      }
      assert loaded.added == LiveKeys(posts, 1, nextPost);
      forall key ensures key in loaded.added <==>
          exists id :: 1 <= id < nextPost && id in posts && !posts[id].deleted && key == IdBytes(id) {
        KeysLoaded(posts, 1, nextPost, key);
      }
      filter := loaded;
    }

    method Create(uid: int, content: string) returns (id: int)
      requires Valid()
      modifies this`posts, this`nextPost, filter`added, filter.bits
      ensures Valid() && id == old(nextPost) && nextPost == id + 1
      ensures posts == old(posts)[id := Post(id, uid, content, 0, 0, now, false)]
      ensures filter.added == old(filter.added) + if filtered then [IdBytes(id)] else []
      ensures View() == PostCache.Create(old(View()), uid, content)
    {
      id := nextPost;
      posts := posts[id := Post(id, uid, content, 0, 0, now, false)];
      nextPost := id + 1;
      if filtered {
        filter.Add(IdBytes(id));
      }
    }

    method InvalidatePost(id: int, changed: bool, ok: bool)
      modifies this`postCache, this`missed
      ensures postCache == if cached && ok then old(postCache) - {id} else old(postCache)
      ensures missed == if !cached then old(missed) else if ok then old(missed) - {id}
                        else if changed then old(missed)[id := now] else old(missed)
      ensures View() == PostCache.Invalidate(old(View()), id, changed, ok)
    {
      if !cached {
        return;
      }
      if ok {
        postCache, missed := postCache - {id}, missed - {id};
      } else if changed {
        missed := missed[id := now];
      }
    }

    method Delete(uid: int, id: int, del: bool) returns (r: Result<()>)
      requires Valid()
      modifies this`posts, this`postCache, this`missed
      ensures r == if id !in old(posts) || old(posts)[id].deleted then Err(NotFound)
                   else if old(posts)[id].userID != uid then Err(Forbidden) else Ok(())
      ensures posts == if r.Ok? then old(posts)[id := old(posts)[id].(deleted := true)] else old(posts)
      ensures postCache == if r.Ok? && cached && del then old(postCache) - {id} else old(postCache)
      ensures Valid() && (r, View()) == PostCache.Delete(old(View()), uid, id, del)
    {
      if id !in posts || posts[id].deleted {
        return Err(NotFound);
      }
      if posts[id].userID != uid {
        return Err(Forbidden);
      }
      posts := posts[id := posts[id].(deleted := true)];
      InvalidatePost(id, true, del);
      r := Ok(());
    }

    /** InteractionService.Like: the post must be live; then write, then delete the entry. */
    method Like(uid: int, id: int, del: bool) returns (r: Result<()>)
      modifies this`likes, this`postCache, this`missed
      ensures r == if id in posts && !posts[id].deleted then Ok(()) else Err(NotFound)
      ensures likes == if r.Ok? then old(likes) + {LikeRow(id, uid)} else old(likes)
      ensures postCache == if r.Ok? && cached && del then old(postCache) - {id} else old(postCache)
      ensures View() == PostCache.Interact(old(View()), uid, id, true, del)
    {
      if id !in posts || posts[id].deleted {
        return Err(NotFound);
      }
      likes := likes + {LikeRow(id, uid)};
      InvalidatePost(id, false, del);
      r := Ok(());
    }

    method Unlike(uid: int, id: int, del: bool) returns (r: Result<()>)
      modifies this`likes, this`postCache, this`missed
      ensures r == if id in posts && !posts[id].deleted then Ok(()) else Err(NotFound)
      ensures likes == if r.Ok? then old(likes) - {LikeRow(id, uid)} else old(likes)
      ensures postCache == if r.Ok? && cached && del then old(postCache) - {id} else old(postCache)
      ensures View() == PostCache.Interact(old(View()), uid, id, false, del)
    {
      if id !in posts || posts[id].deleted {
        return Err(NotFound);
      }
      likes := likes - {LikeRow(id, uid)};
      InvalidatePost(id, false, del);
      r := Ok(());
    }

    /** InteractionService.Comment, as far as the post and its entry go. */
    method Comment(id: int, del: bool) returns (r: Result<()>)
      modifies this`postCache, this`missed
      ensures r == if id in posts && !posts[id].deleted then Ok(()) else Err(NotFound)
      ensures postCache == if r.Ok? && cached && del then old(postCache) - {id} else old(postCache)
      ensures View() == PostCache.CommentOn(old(View()), id, del)
    {
      if id !in posts || posts[id].deleted {
        return Err(NotFound);
      }
      InvalidatePost(id, false, del);
      r := Ok(());
    }

    /** The end of InteractionService.DeleteComment, for a comment of post `id`. */
    method Uncomment(id: int, del: bool)
      modifies this`postCache, this`missed
      ensures postCache == if cached && del then old(postCache) - {id} else old(postCache)
      ensures View() == PostCache.Uncomment(old(View()), id, del)
    {
      InvalidatePost(id, false, del);
    }

    /** Counter.Apply seen from the cache: move the counts of a row, soft-deleted or not, then delete the
        entry. */
    method ApplyCount(id: int, likes: int, comments: int, del: bool)
      modifies this`posts, this`postCache, this`missed
      ensures posts.Keys == old(posts).Keys
      ensures forall q :: q in posts ==>
                var p := old(posts)[q];
                posts[q] == if q != id then p
                            else p.(likeCount := p.likeCount + likes, commentCount := p.commentCount + comments)
      ensures postCache == if cached && del then old(postCache) - {id} else old(postCache)
      ensures View() == PostCache.ApplyCount(old(View()), id, likes, comments, del)
    {
      if id !in posts {
        InvalidatePost(id, false, del);
        return;
      }
      var p := posts[id];
      posts := posts[id := p.(likeCount := p.likeCount + likes, commentCount := p.commentCount + comments)];
      InvalidatePost(id, true, del);
    }
  }
}
