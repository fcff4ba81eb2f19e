/** The sequencer feed client (verifier/nitro/feed_client/client.go). */
module Feed {
  import opened Common

  /** A message with its metadata; `rest` is everything but the L2 payload and the delayed count. */
  datatype Msg = Msg(l2msg: Bytes, delayedRead: nat, rest: Bytes)

  /** An element of a broadcast; JSON null decodes to `Nothing`. */
  datatype Item = Nothing | Item(number: nat, msg: Msg)

  datatype Feed = Feed(next: nat, cache: map<nat, Msg>)

  function New(start: nat): Feed {
    Feed(start, map[])
  }

  function Received(f: Feed, item: Item): Feed {
    if item.Nothing? || item.number < f.next || item.number in f.cache then f
    else f.(cache := f.cache[item.number := item.msg])
  }

  function ReceivedAll(f: Feed, items: seq<Item>): Feed
    decreases |items|
  {
    if items == [] then f else ReceivedAll(Received(f, items[0]), items[1..])
  }

  function Stepped(f: Feed): Feed {
    Feed(f.next + 1, f.cache - {f.next})
  }

  function SteppedTo(f: Feed, to: nat): Feed {
    Feed(to, map k | k in f.cache && !(f.next <= k < to) :: f.cache[k])
  }

  ghost predicate Valid(f: Feed) {
    forall k :: k in f.cache ==> f.next <= k
  }

  /** Everything of f is still there as it was. */
  ghost predicate Keeps(f: Feed, g: Feed) {
    forall k :: k in f.cache ==> k in g.cache && g.cache[k] == f.cache[k]
  }

  /** What arrives never replaces what is cached, and nothing below the cursor gets in. */
  lemma {:induction false} ArrivalsKeepTheCache(f: Feed, items: seq<Item>)
    requires Valid(f)
    ensures Valid(ReceivedAll(f, items)) && Keeps(f, ReceivedAll(f, items))
    ensures ReceivedAll(f, items).next == f.next
    decreases |items|
  {
    if items == [] {
    } else {
      ArrivalsKeepTheCache(Received(f, items[0]), items[1..]);
    }
  }

  /** The i-th item is a message numbered k. */
  predicate IsFor(items: seq<Item>, i: nat, k: nat)
    requires i < |items|
  {
    items[i].Item? && items[i].number == k
  }

  /** No item before the i-th has its number. */
  ghost predicate IsFirst(items: seq<Item>, i: nat)
    requires i < |items| && items[i].Item?
  {
    forall h :: 0 <= h < i ==> !IsFor(items, h, items[i].number)
  }

  lemma {:induction false} CachedStays(f: Feed, items: seq<Item>, k: nat)
    requires k in f.cache
    ensures k in ReceivedAll(f, items).cache && ReceivedAll(f, items).cache[k] == f.cache[k]
    decreases |items|
  {
    if items == [] {
    } else {
      CachedStays(Received(f, items[0]), items[1..], k);
    }
  }

  /** Every message at or above the cursor, first of its number and not cached before, ends up in the cache. */
  lemma {:induction false} FirstOfItsNumberArrives(f: Feed, items: seq<Item>, i: nat)
    requires i < |items| && items[i].Item? && IsFirst(items, i)
    requires items[i].number >= f.next && items[i].number !in f.cache
    ensures var g := ReceivedAll(f, items);
            items[i].number in g.cache && g.cache[items[i].number] == items[i].msg
    decreases |items|
  {
    var f', rest := Received(f, items[0]), items[1..];
    if i == 0 {
      CachedStays(f', rest, items[0].number);
    } else {
      assert !IsFor(items, 0, items[i].number);
      forall h | 0 <= h < i - 1 ensures !IsFor(rest, h, items[i].number) {
        assert !IsFor(items, h + 1, items[i].number);
      }
      FirstOfItsNumberArrives(f', rest, i - 1);
    }
  }

  /** And nothing else does: what is new in the cache was such a message. */
  lemma {:induction false} ArrivalsWereSent(f: Feed, items: seq<Item>, k: nat) returns (i: nat)
    requires k !in f.cache && k in ReceivedAll(f, items).cache
    ensures i < |items| && IsFor(items, i, k) && IsFirst(items, i) && k >= f.next
    ensures ReceivedAll(f, items).cache[k] == items[i].msg
    decreases |items|
  {
    var f', rest := Received(f, items[0]), items[1..];
    if k in f'.cache {
      i := 0;
      CachedStays(f', rest, k);
    } else {
      i := ArrivalsWereSent(f', rest, k);
      forall h | 0 <= h < i + 1 ensures !IsFor(items, h, k) {
        assert h == 0 || !IsFor(rest, h - 1, k);
      }
      i := i + 1;
    }
  }

  class FeedClient {
    var nextSeqNum: nat
    var messages: map<nat, Msg>

    ghost function View(): Feed
      reads this
    {
      Feed(nextSeqNum, messages)
    }

    constructor (startSeqNum: nat)
      ensures View() == New(startSeqNum)
    {
      nextSeqNum := startSeqNum;
      messages := map[];
    }

    method GetMessage(seqNum: nat) returns (m: Option<Msg>)
      ensures m == if seqNum in View().cache then Some(View().cache[seqNum]) else None
    {
      if seqNum in messages {
        return Some(messages[seqNum]);
      }
      return None;
    }

    method Advance()
      modifies this
      ensures View() == Stepped(old(View()))
    {
      messages := messages - {nextSeqNum};
      nextSeqNum := nextSeqNum + 1;
    }

    method AdvanceTo(seqNum: nat)
      modifies this
      ensures View() == SteppedTo(old(View()), seqNum)
    {
      var i := nextSeqNum;
      while i < seqNum
        invariant nextSeqNum == old(nextSeqNum) && i >= nextSeqNum
        invariant i <= seqNum || i == nextSeqNum
        invariant messages == map k | k in old(messages) && !(nextSeqNum <= k < i) :: old(messages)[k]
      {
        messages := messages - {i};
        i := i + 1;
      }
      nextSeqNum := seqNum;
    }

    /** The insertion loop of `readMessages`, under the lock. */
    method Receive(items: seq<Item>)
      modifies this
      ensures View() == ReceivedAll(old(View()), items)
    {
      for i := 0 to |items|
        invariant ReceivedAll(View(), items[i..]) == ReceivedAll(old(View()), items)
      {
        assert items[i..][1..] == items[i + 1..];
        if items[i].Nothing? {
          continue;
        }
        if items[i].number < nextSeqNum {
          continue;
        }
        if items[i].number in messages {
          continue;
        }
        messages := messages[items[i].number := items[i].msg];
      }
    }
  }
}
