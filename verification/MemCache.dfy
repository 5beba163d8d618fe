/** The cache object of internal/insight/factory/memcache.go: an LRU list of entry objects and a map into it. */
module MemCache {
  import opened Options
  import opened LruModel

  class CacheEntry<R> {
    const key: string
    var result: R
    var expires: int

    constructor (key: string, result: R, expires: int)
      ensures this.key == key && this.result == result && this.expires == expires
    {
      this.key, this.result, this.expires := key, result, expires;
    }

    function View(): Entry<R>
      reads this
    {
      Entry(key, result, expires)
    }
  }

  /** s is what the list shows, entry by entry. */
  ghost predicate Shows<R>(ll: seq<CacheEntry<R>>, s: seq<Entry<R>>)
    reads ll
  {
    |s| == |ll| && forall i :: 0 <= i < |ll| ==> s[i] == ll[i].View()
  }

  /** list.Remove: the list without this element. */
  function Unlink<R>(ll: seq<CacheEntry<R>>, el: CacheEntry<R>): seq<CacheEntry<R>> {
    if ll == [] then [] else if ll[0] == el then Unlink(ll[1..], el) else [ll[0]] + Unlink(ll[1..], el)
  }

  /** The list and the map name the same entries, one per key. */
  ghost predicate Linked<R>(ll: seq<CacheEntry<R>>, items: map<string, CacheEntry<R>>) {
    && (forall i :: 0 <= i < |ll| ==> ll[i].key in items && items[ll[i].key] == ll[i])
    && (forall key :: key in items ==> items[key] in ll && items[key].key == key)
    && OwnKeys(ll)
  }

  ghost predicate Within<R>(a: seq<CacheEntry<R>>, b: seq<CacheEntry<R>>) {
    forall i :: 0 <= i < |a| ==> a[i] in b
  }

  lemma {:induction false} UnlinkFrom<R>(ll: seq<CacheEntry<R>>, el: CacheEntry<R>)
    ensures forall i :: 0 <= i < |Unlink(ll, el)| ==> Unlink(ll, el)[i] in ll && Unlink(ll, el)[i] != el
    ensures forall i :: 0 <= i < |ll| && ll[i] != el ==> ll[i] in Unlink(ll, el)
  {
    if ll == [] {
    } else {
      UnlinkFrom(ll[1..], el);
      assert ll == [ll[0]] + ll[1..];
    }
  }

  ghost predicate OwnKeys<R>(ll: seq<CacheEntry<R>>) {
    forall i, j :: 0 <= i < j < |ll| ==> ll[i].key != ll[j].key
  }

  lemma {:induction false} UnlinkOwnKeys<R>(ll: seq<CacheEntry<R>>, el: CacheEntry<R>)
    requires OwnKeys(ll)
    ensures OwnKeys(Unlink(ll, el))
    ensures |Unlink(ll, el)| == if el in ll then |ll| - 1 else |ll|
  {
    if ll == [] {
    } else {
      var rest := Unlink(ll[1..], el);
      UnlinkOwnKeys(ll[1..], el);
      forall i | 0 <= i < |rest|
        ensures rest[i].key != ll[0].key
      {
        UnlinkFrom(ll[1..], el);
        assert rest[i] in ll[1..];
      }
    }
  }

  lemma UnlinkMembers<R>(ll: seq<CacheEntry<R>>, el: CacheEntry<R>)
    requires OwnKeys(ll)
    ensures forall i :: 0 <= i < |Unlink(ll, el)| ==> Unlink(ll, el)[i] in ll && Unlink(ll, el)[i] != el
    ensures forall i :: 0 <= i < |ll| && ll[i] != el ==> ll[i] in Unlink(ll, el)
    ensures |Unlink(ll, el)| == if el in ll then |ll| - 1 else |ll|
    ensures OwnKeys(Unlink(ll, el))
  {
    UnlinkFrom(ll, el);
    UnlinkOwnKeys(ll, el);
  }

  lemma LinkedWithout<R>(ll: seq<CacheEntry<R>>, items: map<string, CacheEntry<R>>, el: CacheEntry<R>)
    requires Linked(ll, items) && el in ll
    ensures Linked(Unlink(ll, el), items - {el.key})
  {
    UnlinkMembers(ll, el);
    var rest := Unlink(ll, el);
    assert forall i :: 0 <= i < |rest| ==> rest[i] in ll && rest[i] != el;
  }

  lemma LinkedMoved<R>(ll: seq<CacheEntry<R>>, items: map<string, CacheEntry<R>>, el: CacheEntry<R>)
    requires Linked(ll, items) && el in ll
    ensures Linked([el] + Unlink(ll, el), items)
    ensures |Unlink(ll, el)| == |ll| - 1
  {
    UnlinkMembers(ll, el);
    LinkedWithout(ll, items, el);
  }

  lemma LinkedPush<R>(ll: seq<CacheEntry<R>>, items: map<string, CacheEntry<R>>, el: CacheEntry<R>)
    requires Linked(ll, items) && el.key !in items
    ensures Linked([el] + ll, items[el.key := el])
  {
  }

  lemma {:induction false} UnlinkShows<R>(ll: seq<CacheEntry<R>>, s: seq<Entry<R>>, el: CacheEntry<R>)
    requires Shows(ll, s)
    requires forall i :: 0 <= i < |ll| && ll[i].key == el.key ==> ll[i] == el
    ensures Shows(Unlink(ll, el), Without(s, el.key))
  {
    if ll == [] {
    } else {
      UnlinkShows(ll[1..], s[1..], el);
    }
  }

  lemma ShowsPrepend<R>(el: CacheEntry<R>, ll: seq<CacheEntry<R>>, s: seq<Entry<R>>)
    requires Shows(ll, s)
    ensures Shows([el] + ll, [el.View()] + s)
  {
  }

  lemma FindShown<R>(ll: seq<CacheEntry<R>>, items: map<string, CacheEntry<R>>, s: seq<Entry<R>>, key: string)
    requires Linked(ll, items) && Shows(ll, s)
    ensures Distinct(s)
    ensures key in items <==> key in Keys(s)
    ensures key in items ==> Find(s, key) == Some(items[key].View())
  {
    if key in items {
      var i :| 0 <= i < |ll| && ll[i] == items[key];
      FindDistinct(s, i);
    }
  }

  lemma SetShows<R>(s: seq<Entry<R>>, size: int, ttl: int, key: string, result: R, now: int)
    ensures var e, after := Entry(key, result, now + ttl), AfterSet(s, size, ttl, key, result, now);
            after == if key in Keys(s) then [e] + Without(s, key) else Evict([e] + s, size)
  {
  }

  class MemCache<R> {
    const ttl: int
    const size: int
    var ll: seq<CacheEntry<R>>  // front = most recently used
    var items: map<string, CacheEntry<R>>
    ghost var contents: seq<Entry<R>>

    ghost predicate Valid()
      reads this, ll
    {
      Linked(ll, items) && Shows(ll, contents) && |ll| <= Capacity(size)
    }

    constructor (size: int, ttl: int)
      ensures Valid() && ll == [] && contents == []
      ensures this.size == size && this.ttl == ttl
    {
      this.size, this.ttl := size, ttl;
      ll, items, contents := [], map[], [];
    }

    method RemoveElement(el: CacheEntry<R>)
      requires Linked(ll, items) && Shows(ll, contents) && el in ll
      modifies this
      ensures Linked(ll, items) && Shows(ll, contents) && Within(ll, old(ll))
      ensures contents == Without(old(contents), el.key)
    {
      var rest := Unlink(ll, el);
      assert Linked(rest, items - {el.key}) by { LinkedWithout(ll, items, el); }
      assert Within(rest, ll) by { UnlinkMembers(ll, el); }
      assert Shows(rest, Without(contents, el.key)) by { UnlinkShows(ll, contents, el); }
      ll, items, contents := rest, items - {el.key}, Without(contents, el.key);
    }

    method MoveToFront(el: CacheEntry<R>)
      requires Linked(ll, items) && Shows(ll, contents) && el in ll
      modifies this`ll, this`contents
      ensures Linked(ll, items) && Shows(ll, contents) && Within(ll, old(ll)) && |ll| == |old(ll)|
      ensures contents == [el.View()] + Without(old(contents), el.key)
    {
      var moved := [el] + Unlink(ll, el);
      ghost var shown := [el.View()] + Without(contents, el.key);
      assert Linked(moved, items) && |moved| == |ll| by { LinkedMoved(ll, items, el); }
      assert Within(moved, ll) by { UnlinkMembers(ll, el); }
      assert Shows(moved, shown) by {
        UnlinkShows(ll, contents, el);
        ShowsPrepend(el, Unlink(ll, el), Without(contents, el.key));
      }
      ll, contents := moved, shown;
    }

    method Get(key: string, now: int) returns (found: Option<R>)
      requires Valid()
      modifies this
      ensures Valid() && Within(ll, old(ll))
      ensures found == Answer(old(contents), key, now)
      ensures contents == AfterGet(old(contents), key, now)
    {
      FindShown(ll, items, contents, key);
      if key !in items {
        return None;
      }
      assert |Without(contents, key)| < |contents| by { WithoutDistinct(contents, key); }
      var entry := items[key];
      if !(now < entry.expires) {
        RemoveElement(entry);
        return None;
      }
      MoveToFront(entry);
      return Some(entry.result);
    }

    method Set(key: string, result: R, now: int)
      requires Valid()
      modifies this, ll
      ensures Valid()
      ensures contents == AfterSet(old(contents), size, ttl, key, result, now)
    {
      ghost var before := contents;
      var expires := now + ttl;
      assert key in items <==> key in Keys(before) by { FindShown(ll, items, before, key); }
      SetShows(before, size, ttl, key, result, now);
      if key in items {
        var entry := items[key];
        assert entry in ll && entry.key == key;
        Refresh(entry, result, expires);
        assert contents == [Entry(key, result, expires)] + Without(before, key);
      } else {
        Insert(key, result, expires);
      }
    }

    /** Set on a key that is there: the entry is updated in place and becomes the most recently used. */
    method Refresh(entry: CacheEntry<R>, result: R, expires: int)
      requires Linked(ll, items) && Shows(ll, contents) && entry in ll
      modifies this`ll, this`contents, entry
      ensures Linked(ll, items) && Shows(ll, contents) && |ll| == |old(ll)|
      ensures contents == [Entry(entry.key, result, expires)] + Without(old(contents), entry.key)
    {
      var rest := Unlink(ll, entry);
      ghost var shown := Without(contents, entry.key);
      assert Shows(rest, shown) by { UnlinkShows(ll, contents, entry); }
      assert entry !in rest by { UnlinkMembers(ll, entry); }
      assert Linked([entry] + rest, items) && |rest| == |ll| - 1 by { LinkedMoved(ll, items, entry); }
      entry.result := result;
      entry.expires := expires;
      ShowsPrepend(entry, rest, shown);
      ll, contents := [entry] + rest, [entry.View()] + shown;
    }

    /** Set on a new key: in front, and the back entry out when the list is too long. */
    method Insert(key: string, result: R, expires: int)
      requires Valid() && key !in items
      modifies this
      ensures Valid()
      ensures contents == Evict([Entry(key, result, expires)] + old(contents), size)
    {
      var entry := new CacheEntry(key, result, expires);
      var pushed := [entry] + ll;
      ghost var shown := [entry.View()] + contents;
      assert Linked(pushed, items[key := entry]) by { LinkedPush(ll, items, entry); }
      assert Shows(pushed, shown);
      items := items[key := entry];
      ll, contents := pushed, shown;
      if |ll| > size {
        EvictOldest();
      }
    }

    method EvictOldest()
      requires Linked(ll, items) && Shows(ll, contents) && ll != []
      modifies this
      ensures Linked(ll, items) && Shows(ll, contents)
      ensures contents == old(contents)[..|old(contents)| - 1]
    {
      var oldest := ll[|ll| - 1];
      assert Without(contents, oldest.key) == contents[..|ll| - 1] by {
        FindShown(ll, items, contents, oldest.key);
        WithoutDistinct(contents, oldest.key);
      }
      RemoveElement(oldest);
    }
  }
}
