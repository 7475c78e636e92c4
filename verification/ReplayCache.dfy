/** The cache of proof-of-possession token identifiers (jti): a set with a queue in arrival order. */
module ReplayCache {
  import opened ByteStrings

  const MAX_JTI_CACHE_SIZE := 10_000

  datatype Cache = Cache(keys: set<string>, order: seq<string>)

  const EMPTY := Cache({}, [])

  ghost predicate NoDuplicates(s: seq<string>) {
    forall i, j :: 0 <= i < j < |s| ==> s[i] != s[j]
  }

  /** Map and queue hold the same identifiers, each once, and no more than the cap. */
  ghost predicate Consistent(c: Cache) {
    && NoDuplicates(c.order)
    && (forall x :: x in c.keys <==> x in c.order)
    && |c.order| <= MAX_JTI_CACHE_SIZE
  }

  lemma {:induction false} SizeOfOrder(keys: set<string>, order: seq<string>)
    requires NoDuplicates(order) && (forall x :: x in keys <==> x in order)
    ensures |keys| == |order|
  {
    if order == [] {
      assert keys == {};
    } else {
      assert order == [order[0]] + order[1..];
      assert forall i :: 1 <= i < |order| ==> order[i] != order[0];
      SizeOfOrder(keys - {order[0]}, order[1..]);
    }
  }

  /** Evict the oldest when full, then record the identifier. */
  function Insert(c: Cache, jti: string): Cache {
    var c1 := if |c.keys| >= MAX_JTI_CACHE_SIZE && |c.order| > 0
              then Cache(c.keys - {c.order[0]}, c.order[1..]) else c;
    Cache(c1.keys + {jti}, c1.order + [jti])
  }

  predicate Evicts(c: Cache, jti: string) {
    jti !in c.keys && |c.keys| >= MAX_JTI_CACHE_SIZE && |c.order| > 0
  }

  function DropAt<T>(s: seq<T>, i: nat): seq<T> {
    if i < |s| then s[..i] + s[i + 1..] else s
  }

  function Remove(c: Cache, jti: string): Cache {
    Cache(c.keys - {jti}, DropAt(c.order, IndexOf(c.order, jti)))
  }

  lemma {:induction false} InsertConsistent(c: Cache, jti: string)
    requires Consistent(c) && jti !in c.keys
    ensures Consistent(Insert(c, jti))
  {
    SizeOfOrder(c.keys, c.order);
    if Evicts(c, jti) {
      assert c.order == [c.order[0]] + c.order[1..];
    }
  }

  lemma {:induction false} DropAtMembers(s: seq<string>, i: nat)
    requires NoDuplicates(s) && i < |s|
    ensures NoDuplicates(DropAt(s, i))
    ensures forall x :: x in DropAt(s, i) <==> x in s && x != s[i]
  {
    var d := DropAt(s, i);
    assert forall k :: 0 <= k < |d| ==> d[k] == s[if k < i then k else k + 1];
    forall x | x in s && x != s[i]
      ensures x in d
    {
      var k :| 0 <= k < |s| && s[k] == x;
      assert d[if k < i then k else k - 1] == x;
    }
  }

  lemma {:induction false} RemoveConsistent(c: Cache, jti: string)
    requires Consistent(c)
    ensures Consistent(Remove(c, jti)) && jti !in Remove(c, jti).keys
  {
    hide IndexOf, DropAt;
    var i := IndexOf(c.order, jti);
    if i < |c.order| {
      DropAtMembers(c.order, i);
      DropAtSize(c.order, i);
    } else {
      DropAtSize(c.order, i);
    }
  }

  lemma DropAtSize<T>(s: seq<T>, i: nat)
    ensures |DropAt(s, i)| == if i < |s| then |s| - 1 else |s|
    ensures i >= |s| ==> DropAt(s, i) == s
  {
  }

  class JtiCache {
    var jtiCache: set<string>
    var jtiCacheOrder: seq<string>

    ghost function View(): Cache
      reads this
    {
      Cache(jtiCache, jtiCacheOrder)
    }

    constructor ()
      ensures View() == EMPTY && Consistent(View())
    {
      jtiCache, jtiCacheOrder := {}, [];
    }

    /** Records a new identifier; false, and no change, for one that is already there. */
    method AddCheckJti(jti: string) returns (fresh_: bool)
      requires Consistent(View())
      modifies this
      ensures Consistent(View())
      ensures fresh_ == (jti !in old(jtiCache))
      ensures View() == if fresh_ then Insert(old(View()), jti) else old(View())
      ensures jti in jtiCache
    {
      if jti in jtiCache {
        return false;
      }
      InsertConsistent(View(), jti);
      if |jtiCache| >= MAX_JTI_CACHE_SIZE && |jtiCacheOrder| > 0 {
        var oldest := jtiCacheOrder[0];
        jtiCacheOrder := jtiCacheOrder[1..];
        jtiCache := jtiCache - {oldest};
      }
      jtiCache := jtiCache + {jti};
      jtiCacheOrder := jtiCacheOrder + [jti];
      return true;
    }

    /** Removes an identifier from the map and, after a scan, from the queue. */
    method DeleteJtiNow(jti: string)
      requires Consistent(View())
      modifies this
      ensures Consistent(View()) && View() == Remove(old(View()), jti)
      ensures jtiCache == old(jtiCache) - {jti}
    {
      RemoveConsistent(View(), jti);
      ghost var order := jtiCacheOrder;
      jtiCache := jtiCache - {jti};
      var i := 0;
      while i < |jtiCacheOrder|
        invariant 0 <= i <= |jtiCacheOrder| && jtiCacheOrder == order
        invariant jtiCache == old(jtiCache) - {jti}
        invariant forall k :: 0 <= k < i ==> order[k] != jti
      {
        if jtiCacheOrder[i] == jti {
          assert IndexOf(order, jti) == i;
          jtiCacheOrder := jtiCacheOrder[..i] + jtiCacheOrder[i + 1..];
          return;
        }
        i := i + 1;
      }
      assert IndexOf(order, jti) == |order|;
    }
  }
}
