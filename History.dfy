/**
 * The visited-URL history list (SilkBrowser.track_history): an insertion-ordered list
 * of URL strings to which a URL is appended only when exact string equality does not
 * already find it.
 */
module History {

  /** No URL occurs twice. */
  predicate NoDuplicates(h: seq<string>) {
    forall i, j :: 0 <= i < j < |h| ==> h[i] != h[j]
  }

  /** The list after one URL-changed event reports `url`. */
  function Record(h: seq<string>, url: string): (r: seq<string>)
    ensures url in r
    ensures url in h ==> r == h
    ensures url !in h ==> r == h + [url]
    ensures NoDuplicates(h) ==> NoDuplicates(r)
  {
    if url !in h then h + [url] else h
  }

  /** Recording the same URL twice leaves the list as recording it once. */
  lemma RecordIdempotent(h: seq<string>, url: string)
    ensures Record(Record(h, url), url) == Record(h, url)
  {
  }

  /** The list after the events of `urls`, reported in order, starting from `h`. */
  function Replay(h: seq<string>, urls: seq<string>): seq<string>
    decreases |urls|
  {
    if urls == [] then h else Record(Replay(h, urls[..|urls| - 1]), urls[|urls| - 1])
  }

  /**
   * Replaying events only appends: the old list is kept as a prefix, the list stays free
   * of duplicates, and it holds exactly the URLs of the old list and of the events.
   */
  lemma {:induction false} ReplayGrows(h: seq<string>, urls: seq<string>)
    requires NoDuplicates(h)
    ensures var r := Replay(h, urls);
      |h| <= |r| && r[..|h|] == h && NoDuplicates(r) &&
      forall u :: u in r <==> u in h || u in urls
    decreases |urls|
  {
    if urls != [] {
      var init := urls[..|urls| - 1];
      var last := urls[|urls| - 1];
      ReplayGrows(h, init);
      var before := Replay(h, init);
      assert Replay(h, urls) == Record(before, last);
      assert urls == init + [last];
      forall u ensures u in urls <==> u in init || u == last {
        assert u in urls <==> u in init + [last];
      }
      if last !in before {
        assert (before + [last])[..|h|] == before[..|h|];
      }
    }
  }

  /** Position of the first occurrence of `u` in `urls`. */
  function FirstIndex(urls: seq<string>, u: string): (k: nat)
    requires u in urls
    ensures k < |urls| && urls[k] == u
    ensures forall i :: 0 <= i < k ==> urls[i] != u
  {
    if urls[0] == u then 0 else 1 + FirstIndex(urls[1..], u)
  }

  /** The first occurrence of a URL is unaffected by what follows it. */
  lemma FirstIndexOfPrefix(urls: seq<string>, n: nat, u: string)
    requires n <= |urls| && u in urls[..n]
    ensures u in urls && FirstIndex(urls, u) == FirstIndex(urls[..n], u)
  {
  }

  /** `r` lists URLs of `urls` in the order of their first occurrence there. */
  ghost predicate InFirstOccurrenceOrder(r: seq<string>, urls: seq<string>) {
    forall i, j :: 0 <= i < j < |r| ==>
      r[i] in urls && r[j] in urls && FirstIndex(urls, r[i]) < FirstIndex(urls, r[j])
  }

  /**
   * From an empty list, the history after any sequence of events holds each distinct
   * URL exactly once, in the order in which each was first reported.
   */
  lemma {:induction false} ReplayFromEmpty(urls: seq<string>)
    ensures var r := Replay([], urls);
      NoDuplicates(r) && (forall u :: u in r <==> u in urls) && InFirstOccurrenceOrder(r, urls)
    decreases |urls|
  {
    ReplayGrows([], urls);
    if urls != [] {
      var n := |urls| - 1;
      var init := urls[..n];
      var last := urls[n];
      ReplayFromEmpty(init);
      var before := Replay([], init);
      var r := Replay([], urls);
      forall i | 0 <= i < |before|
        ensures before[i] in urls && FirstIndex(urls, before[i]) == FirstIndex(init, before[i])
      {
        assert before[i] in init;
        FirstIndexOfPrefix(urls, n, before[i]);
      }
      if last in before {
        assert r == before;
      } else {
        assert r == before + [last];
        assert last !in init;
        assert FirstIndex(urls, last) == n;
        forall i, j | 0 <= i < j < |r|
          ensures r[i] in urls && r[j] in urls && FirstIndex(urls, r[i]) < FirstIndex(urls, r[j])
        {
          if j < |before| {
            assert r[i] == before[i] && r[j] == before[j];
          } else {
            assert r[i] == before[i];
            assert FirstIndex(init, before[i]) < |init|;
          }
        }
      }
    }
  }

  /** The event sequence a.com, b.com, a.com leaves [a.com, b.com]. */
  lemma ReplayExample()
    ensures Replay([], ["http://a.com", "http://b.com", "http://a.com"]) == ["http://a.com", "http://b.com"]
  {
    var a, b := "http://a.com", "http://b.com";
    assert a != b by { assert a[7] != b[7]; }
    var none: seq<string> := [];
    assert [a, b, a][..2] == [a, b] && [a, b][..1] == [a] && [a][..0] == none;
    assert Replay([], [a]) == [a];
    assert Replay([], [a, b]) == [a, b];
  }
}
