/** The rows of the shared database and the small result types used by every module. */
module Model {

  datatype Option<+T> = None | Some(value: T)

  datatype Result<+T> = Ok(value: T) | Err(error: Error)

  datatype Error =
    | NotFound
    | Forbidden
    | Unauthorized
    | BadRequest(code: int)
    | Storage                 // a database, broker or cache failure

  /** A post row.  `content` stands for everything the author wrote (text, images, tags). */
  datatype Post = Post(
    id: int, userID: int, content: string, likeCount: int, commentCount: int, createdAt: int, deleted: bool)

  datatype LikeRow = LikeRow(postID: int, userID: int)

  datatype CommentRow = CommentRow(id: int, postID: int, userID: int, content: string, createdAt: int)

  /** The two columns a count event may touch, and any other text a payload could name. */
  datatype Field = LikeCount | CommentCount | Other(name: string)

  /** Event types are also the broker's routing keys. */
  datatype EventType = LikeCreated | LikeRemoved | CommentCreated | CommentDeleted

  datatype CountEvent = CountEvent(postID: int, field: Field, delta: int)

  /** `serial` is the auto-increment id.  It is handed out at insertion, so rows need not commit in its order. */
  datatype OutboxRow = OutboxRow(serial: nat, key: EventType, event: CountEvent)

  type Byte = x: int | 0 <= x < 256

  const TWO63: int := 0x8000_0000_0000_0000
  const TWO64: nat := 0x1_0000_0000_0000_0000

  predicate InInt64(n: int) {
    -TWO63 <= n < TWO63
  }

  // Times are integer milliseconds unless a module says otherwise.
  const MINUTE: nat := 60_000
  const POST_TTL := 600_000      // postCacheTTL
  const NIL_TTL := 30_000        // nilCacheTTL

  /** The clock minute a time lies in. */
  function MinuteOf(at: nat): nat {
    at / MINUTE
  }

  /** The column whitelist both the producer and the consumer check. */
  predicate AllowedField(f: Field) {
    f == LikeCount || f == CommentCount
  }

  /** The natural numbers in [a, b), in order. */
  function Range(a: nat, b: nat): (r: seq<nat>)
    ensures |r| == if a <= b then b - a else 0
    ensures forall i :: 0 <= i < |r| ==> r[i] == a + i
  {
    if a <= b then seq(b - a, i requires 0 <= i < b - a => a + i) else []
  }

  /** The set {0, ..., n - 1}. */
  function Below(n: nat): (s: set<nat>)
    ensures forall i: nat :: i in s <==> i < n
  {
    if n == 0 then {} else Below(n - 1) + {n - 1}
  }

  lemma SomeMember(s: set<int>)
    requires s != {}
    ensures exists x :: x in s
  {
    if forall x :: x !in s {
      assert false;
    }
  }

  lemma {:induction false} BelowSize(n: nat)
    ensures |Below(n)| == n
  {
    if n != 0 {
      BelowSize(n - 1);
      assert Below(n) == Below(n - 1) + {n - 1};
    }
  }
}
