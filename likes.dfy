/**
 * The likes table and the toggle that PostInteractionController::like runs
 * inside one transaction: find the (post, user) row; delete it when found,
 * insert it otherwise.
 */
module Likes {
  import opened Records
  import opened Seqs

  /** The number of like rows for `postId` (`$post->likes()->count()`). */
  function CountFor(ls: seq<Like>, postId: PostId): (n: nat)
    ensures n <= |ls|
  {
    if ls == [] then 0 else (if ls[0].postId == postId then 1 else 0) + CountFor(ls[1..], postId)
  }

  /** The users that like `postId`. */
  function Likers(ls: seq<Like>, postId: PostId): set<UserId> {
    if ls == [] then {} else (if ls[0].postId == postId then {ls[0].userId} else {}) + Likers(ls[1..], postId)
  }

  /** No (post, user) pair has two rows. */
  predicate Unique(ls: seq<Like>) {
    forall i, j | 0 <= i < j < |ls| :: ls[i] != ls[j]
  }

  /** The position of the first row equal to `l` (what `->first()` finds). */
  function IndexOf(ls: seq<Like>, l: Like): (i: nat)
    requires l in ls
    ensures i < |ls| && ls[i] == l && l !in ls[..i]
  {
    if ls[0] == l then 0 else 1 + IndexOf(ls[1..], l)
  }

  /**
   * The table after one toggle of `l`: one copy of the row is removed when
   * there is one and a copy is added otherwise; no other row changes.
   */
  function Toggle(ls: seq<Like>, l: Like): (r: seq<Like>)
    ensures |r| == if l in ls then |ls| - 1 else |ls| + 1
  {
    if l in ls then ls[..IndexOf(ls, l)] + ls[IndexOf(ls, l) + 1..] else ls + [l]
  }

  /** The table after `n` consecutive toggles of `l`: the row count moves by at most one per toggle. */
  function Toggles(ls: seq<Like>, l: Like, n: nat): (r: seq<Like>)
    ensures |ls| - n <= |r| <= |ls| + n
  {
    if n == 0 then ls else Toggle(Toggles(ls, l, n - 1), l)
  }

  lemma {:induction false} CountAppend(a: seq<Like>, b: seq<Like>, p: PostId)
    ensures CountFor(a + b, p) == CountFor(a, p) + CountFor(b, p)
  {
    if a == [] {
      assert a + b == b;
    } else {
      assert (a + b)[1..] == a[1..] + b;
      CountAppend(a[1..], b, p);
    }
  }

  /** A toggle removes one row `l` when there is one and adds one otherwise; no other row changes. */
  lemma ToggleRows(ls: seq<Like>, l: Like)
    ensures multiset(Toggle(ls, l)) == if l in ls then multiset(ls) - multiset{l} else multiset(ls) + multiset{l}
  {
    if l in ls {
      var i := IndexOf(ls, l);
      assert ls == ls[..i] + [l] + ls[i + 1..];
      assert multiset(ls) == multiset(ls[..i]) + multiset{l} + multiset(ls[i + 1..]);
    }
  }

  /** A toggle only ever adds the toggled row. */
  lemma ToggleMembers(ls: seq<Like>, l: Like)
    ensures forall x | x in Toggle(ls, l) :: x in ls || x == l
  {
    ToggleRows(ls, l);
    forall x | x in Toggle(ls, l) ensures x in ls || x == l {
      assert multiset(Toggle(ls, l))[x] > 0;
    }
  }

  /**
   * The toggle keeps the table free of duplicates, and afterwards the user
   * likes the post exactly when they did not before.
   */
  lemma ToggleFlips(ls: seq<Like>, l: Like)
    requires Unique(ls)
    ensures Unique(Toggle(ls, l))
    ensures l in Toggle(ls, l) <==> l !in ls
  {
    var t := Toggle(ls, l);
    if l in ls {
      var i := IndexOf(ls, l);
      assert t == ls[..i] + ls[i + 1..];
      forall a, b | 0 <= a < b < |t| ensures t[a] != t[b] {
        var a', b' := if a < i then a else a + 1, if b < i then b else b + 1;
        assert t[a] == ls[a'] && t[b] == ls[b'];
      }
      forall k | 0 <= k < |t| ensures t[k] != l {
        var k' := if k < i then k else k + 1;
        assert t[k] == ls[k'];
      }
    } else {
      assert t == ls + [l];
    }
  }

  /** The post's like count moves by exactly one, in the direction of the toggle; other posts keep theirs. */
  lemma ToggleCount(ls: seq<Like>, l: Like, p: PostId)
    ensures p == l.postId && l in ls ==> CountFor(Toggle(ls, l), p) == CountFor(ls, p) - 1
    ensures p == l.postId && l !in ls ==> CountFor(Toggle(ls, l), p) == CountFor(ls, p) + 1
    ensures p != l.postId ==> CountFor(Toggle(ls, l), p) == CountFor(ls, p)
  {
    if l in ls {
      var i := IndexOf(ls, l);
      assert ls == ls[..i] + ([l] + ls[i + 1..]);
      CountAppend(ls[..i], [l] + ls[i + 1..], p);
      CountAppend([l], ls[i + 1..], p);
      CountAppend(ls[..i], ls[i + 1..], p);
    } else {
      CountAppend(ls, [l], p);
    }
  }

  /** Two consecutive toggles restore the rows; starting from "not liked" they restore the table exactly. */
  lemma ToggleTwice(ls: seq<Like>, l: Like)
    requires Unique(ls)
    ensures multiset(Toggle(Toggle(ls, l), l)) == multiset(ls)
    ensures l !in ls ==> Toggle(Toggle(ls, l), l) == ls
  {
    ToggleFlips(ls, l);
    ToggleRows(ls, l);
    ToggleRows(Toggle(ls, l), l);
    if l !in ls {
      var t := ls + [l];
      assert IndexOf(t, l) == |ls|;
      assert t[..|ls|] == ls;
    }
  }

  /** After `n` toggles the user likes the post exactly when that differs from the start by an odd `n`. */
  lemma {:induction false} TogglesParity(ls: seq<Like>, l: Like, n: nat)
    requires Unique(ls)
    ensures Unique(Toggles(ls, l, n))
    ensures (l in Toggles(ls, l, n)) <==> ((l in ls) != (n % 2 == 1))
  {
    if n > 0 {
      var before := Toggles(ls, l, n - 1);
      TogglesParity(ls, l, n - 1);
      ToggleFlips(before, l);
    }
  }

  /** `u` likes `p` exactly when the row (p, u) is in the table. */
  lemma {:induction false} LikersMembership(ls: seq<Like>, p: PostId, u: UserId)
    ensures u in Likers(ls, p) <==> Like(p, u) in ls
  {
    if ls != [] {
      LikersMembership(ls[1..], p, u);
      assert ls == [ls[0]] + ls[1..];
    }
  }

  /** Without duplicate rows the like count is the number of distinct users who like the post. */
  lemma {:induction false} CountIsLikers(ls: seq<Like>, p: PostId)
    requires Unique(ls)
    ensures CountFor(ls, p) == |Likers(ls, p)|
  {
    if ls != [] {
      var rest := ls[1..];
      assert Unique(rest) by {
        forall i, j | 0 <= i < j < |rest| ensures rest[i] != rest[j] {
          assert rest[i] == ls[i + 1] && rest[j] == ls[j + 1];
        }
      }
      CountIsLikers(rest, p);
      if ls[0].postId == p {
        LikersMembership(rest, p, ls[0].userId);
        assert ls[0] !in rest by {
          forall k | 0 <= k < |rest| ensures rest[k] != ls[0] {
            assert rest[k] == ls[k + 1];
          }
        }
      }
    }
  }

  /** Deleting rows (a cascade) cannot create duplicates. */
  lemma {:induction false} FilterUnique(ls: seq<Like>, keep: Like -> bool)
    requires Unique(ls)
    ensures Unique(Filter(ls, keep))
  {
    if ls != [] {
      var rest := ls[1..];
      assert Unique(rest) by {
        forall i, j | 0 <= i < j < |rest| ensures rest[i] != rest[j] {
          assert rest[i] == ls[i + 1] && rest[j] == ls[j + 1];
        }
      }
      FilterUnique(rest, keep);
      assert ls[0] !in rest by {
        forall k | 0 <= k < |rest| ensures rest[k] != ls[0] {
          assert rest[k] == ls[k + 1];
        }
      }
    }
  }
}
