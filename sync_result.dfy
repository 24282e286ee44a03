/**
 * The envelope of one page of a Contentful synchronization response: the
 * items of the page and the two continuation URLs, with the two values the
 * client derives from them (whether another page follows, and the sync token
 * to resume from later).
 */
module Synchronization {
  import opened Wrappers

  /** `IndexOutOfRangeException` from indexing the split query at `[1]`. */
  datatype TokenError = IndexOutOfRange

  /** `String.IsNullOrEmpty`. */
  predicate IsNullOrEmpty(s: Option<string>)
    ensures IsNullOrEmpty(s) <==> s.None? || |s.value| == 0
  {
    s == None || s == Some("")
  }

  /**
   * `SynchronizationResult<T>`: both URLs may be null, and nothing stops both
   * from being set at once.
   */
  datatype SynchronizationResult<T> = SynchronizationResult(
    items: seq<T>,
    nextSyncUrl: Option<string>,
    nextPageUrl: Option<string>)
  {
    /** `HasMoreResults`: whether the next-page URL is set and non-empty. */
    predicate HasMoreResults()
      ensures HasMoreResults() <==> nextPageUrl.Some? && |nextPageUrl.value| > 0
    {
      !IsNullOrEmpty(nextPageUrl)
    }

    /**
     * `SyncToken`: null when there is no next-sync URL; otherwise the second
     * `=`-separated piece of the URL's query, or the indexing failure when
     * the query holds no `=`.
     */
    function SyncToken(): (r: Result<Option<string>, TokenError>)
      ensures IsNullOrEmpty(nextSyncUrl) ==> r == Success(None)
      ensures r.Failure? <==> !IsNullOrEmpty(nextSyncUrl) && '=' !in Query(nextSyncUrl.value)
      ensures r.Success? && r.value.Some? ==> '=' !in r.value.value
    {
      if IsNullOrEmpty(nextSyncUrl) then Success(None)
      else
        var parts := Split(Query(nextSyncUrl.value), '=');
        SplitCount(Query(nextSyncUrl.value), '=');
        if |parts| > 1 then Success(Some(parts[1])) else Failure(IndexOutOfRange)
    }
  }

  /** The longest prefix of `s` that holds no `c`. */
  function TakeUntil(s: string, c: char): (r: string)
    ensures r <= s && c !in r
    ensures r == s || s[|r|] == c
  {
    if s == [] || s[0] == c then [] else [s[0]] + TakeUntil(s[1..], c)
  }

  /**
   * `Uri.Query`: the query component including its leading `?`, running to
   * the fragment mark `#` or the end; empty when a `#` comes before any `?`
   * or there is no `?`.
   */
  function Query(url: string): (q: string)
    ensures q == [] || (q[0] == '?' && '#' !in q)
  {
    if url == [] || url[0] == '#' then []
    else if url[0] == '?' then TakeUntil(url, '#')
    else Query(url[1..])
  }

  /** `String.Split(sep)`: the pieces of `s` between the occurrences of `sep`. */
  function Split(s: string, sep: char): (parts: seq<string>)
    ensures |parts| >= 1
    ensures forall i :: 0 <= i < |parts| ==> sep !in parts[i]
  {
    if s == [] then [[]]
    else
      var rest := Split(s[1..], sep);
      if s[0] == sep then [[]] + rest
      else [[s[0]] + rest[0]] + rest[1..]
  }

  /** The pieces joined back with `sep` between them (`String.Join`). */
  function Join(parts: seq<string>, sep: char): string
    requires |parts| >= 1
  {
    if |parts| == 1 then parts[0] else parts[0] + [sep] + Join(parts[1..], sep)
  }

  /** The number of occurrences of `c` in `s`. */
  function Count(s: string, c: char): nat
  {
    if s == [] then 0 else (if s[0] == c then 1 else 0) + Count(s[1..], c)
  }

  /** A string without `c` has no occurrences of it, and conversely. */
  lemma {:induction false} CountZero(s: string, c: char)
    ensures Count(s, c) == 0 <==> c !in s
  {
    if s != [] {
      CountZero(s[1..], c);
      assert s == [s[0]] + s[1..];
    }
  }

  /** Splitting gives one more piece than there are separators. */
  lemma {:induction false} SplitCount(s: string, sep: char)
    ensures |Split(s, sep)| == Count(s, sep) + 1
    ensures |Split(s, sep)| > 1 <==> sep in s
  {
    if s != [] {
      SplitCount(s[1..], sep);
    }
    CountZero(s, sep);
  }

  /** Joining the pieces of a split gives back the original string. */
  lemma {:induction false} JoinSplit(s: string, sep: char)
    ensures Join(Split(s, sep), sep) == s
  {
    if s != [] {
      JoinSplit(s[1..], sep);
      var rest := Split(s[1..], sep);
      if s[0] == sep {
        assert Split(s, sep)[1..] == rest;
        assert s == [] + [sep] + s[1..];
      } else {
        var parts := Split(s, sep);
        if |rest| == 1 {
          assert s == [s[0]] + rest[0];
        } else {
          assert parts[1..] == rest[1..];
          assert Join(rest, sep) == rest[0] + [sep] + Join(rest[1..], sep);
          assert s == [s[0]] + s[1..];
        }
      }
    }
  }

  /** A piece without `sep` followed by `sep` becomes the first piece of the split. */
  lemma {:induction false} SplitLeading(piece: string, sep: char, rest: string)
    requires sep !in piece
    ensures Split(piece + [sep] + rest, sep) == [piece] + Split(rest, sep)
    decreases |piece|
  {
    var s := piece + [sep] + rest;
    if piece == [] {
      assert s == [sep] + rest;
      assert s[1..] == rest;
    } else {
      assert s[0] == piece[0] && s[1..] == piece[1..] + [sep] + rest;
      SplitLeading(piece[1..], sep, rest);
      assert [piece[0]] + piece[1..] == piece;
    }
  }

  /** A string without `sep` splits into itself alone. */
  lemma {:induction false} SplitWhole(piece: string, sep: char)
    requires sep !in piece
    ensures Split(piece, sep) == [piece]
  {
    if piece != [] {
      SplitWhole(piece[1..], sep);
      assert [piece[0]] + piece[1..] == piece;
    }
  }

  /** Splitting is the inverse of joining pieces that hold no separator. */
  lemma {:induction false} SplitJoin(parts: seq<string>, sep: char)
    requires |parts| >= 1
    requires forall i :: 0 <= i < |parts| ==> sep !in parts[i]
    ensures Split(Join(parts, sep), sep) == parts
  {
    if |parts| == 1 {
      SplitWhole(parts[0], sep);
    } else {
      SplitJoin(parts[1..], sep);
      SplitLeading(parts[0], sep, Join(parts[1..], sep));
      assert parts == [parts[0]] + parts[1..];
    }
  }

  /**
   * The second piece of a split is the text after the first `sep`, up to the
   * next `sep` or the end.
   */
  lemma SplitSecond(before: string, token: string, after: string, sep: char)
    requires sep !in before && sep !in token
    requires after == [] || after[0] == sep
    ensures |Split(before + [sep] + (token + after), sep)| > 1
    ensures Split(before + [sep] + (token + after), sep)[1] == token
  {
    SplitLeading(before, sep, token + after);
    SplitFirst(token, after, sep);
  }

  /** The first piece of a split is the text up to the first `sep`, or all of it. */
  lemma SplitFirst(token: string, after: string, sep: char)
    requires sep !in token
    requires after == [] || after[0] == sep
    ensures Split(token + after, sep)[0] == token
  {
    if after == [] {
      assert token + after == token;
      SplitWhole(token, sep);
    } else {
      assert token + after == token + [sep] + after[1..];
      SplitLeading(token, sep, after[1..]);
    }
  }

  /** `Query` skips a path without `?` or `#` and stops at the fragment. */
  lemma {:induction false} QueryOfParts(path: string, query: string, fragment: string)
    requires '?' !in path && '#' !in path
    requires |query| >= 1 && query[0] == '?' && '#' !in query
    requires fragment == [] || fragment[0] == '#'
    ensures Query(path + query + fragment) == query
    decreases |path|
  {
    var url := path + query + fragment;
    if path == [] {
      assert url == query + fragment;
      TakeUntilStops(query, fragment);
    } else {
      assert url[0] == path[0] && url[1..] == path[1..] + query + fragment;
      QueryOfParts(path[1..], query, fragment);
    }
  }

  /** A URL whose first `?` does not come before its first `#` has an empty query. */
  lemma {:induction false} QueryEmpty(path: string, fragment: string)
    requires '?' !in path && '#' !in path
    requires fragment == [] || fragment[0] == '#'
    ensures Query(path + fragment) == []
    decreases |path|
  {
    var url := path + fragment;
    if path != [] {
      assert url[0] == path[0] && url[1..] == path[1..] + fragment;
      QueryEmpty(path[1..], fragment);
    } else {
      assert url == fragment;
    }
  }

  /** `TakeUntil` reads to the end of a text without `c`, or to the `c` that follows it. */
  lemma {:induction false} TakeUntilStops(s: string, tail: string)
    requires '#' !in s
    requires tail == [] || tail[0] == '#'
    ensures TakeUntil(s + tail, '#') == s
    decreases |s|
  {
    if s == [] {
      assert s + tail == tail;
    } else {
      assert (s + tail)[1..] == s[1..] + tail;
      TakeUntilStops(s[1..], tail);
      assert [s[0]] + s[1..] == s;
    }
  }

  /**
   * Reading back a token: the token is the text after the first `=` of the
   * query of the next-sync URL, up to the next `=` or the end.
   */
  lemma SyncTokenBetweenSeparators<T>(r: SynchronizationResult<T>, path: string, key: string, token: string, after: string, fragment: string)
    requires '?' !in path && '#' !in path
    requires '=' !in key && '#' !in key && '=' !in token && '#' !in token && '#' !in after
    requires after == [] || after[0] == '='
    requires fragment == [] || fragment[0] == '#'
    requires r.nextSyncUrl == Some(path + "?" + key + "=" + token + after + fragment)
    ensures r.SyncToken() == Success(Some(token))
  {
    var query := "?" + key + "=" + token + after;
    assert r.nextSyncUrl.value == path + query + fragment;
    QueryOfParts(path, query, fragment);
    assert query == ("?" + key) + ['='] + (token + after);
    SplitSecond("?" + key, token, after, '=');
  }

  /** Round trip: a URL that carries `sync_token=t` as its query gives back `t`. */
  lemma SyncTokenRoundTrip<T>(r: SynchronizationResult<T>, path: string, token: string)
    requires '?' !in path && '#' !in path
    requires '=' !in token && '#' !in token
    requires r.nextSyncUrl == Some(path + "?sync_token=" + token)
    ensures r.SyncToken() == Success(Some(token))
  {
    assert path + "?sync_token=" + token == path + "?" + "sync_token" + "=" + token + [] + [];
    SyncTokenBetweenSeparators(r, path, "sync_token", token, [], []);
  }

  /** A concrete next-sync URL and its token. */
  lemma SyncTokenExample<T>(items: seq<T>, nextPageUrl: Option<string>)
    ensures SynchronizationResult(items, Some("https://host/spaces/x?sync_token=ABC123"), nextPageUrl).SyncToken()
      == Success(Some("ABC123"))
  {
    assert "https://host/spaces/x?sync_token=ABC123" == "https://host/spaces/x" + "?sync_token=" + "ABC123";
    SyncTokenRoundTrip(SynchronizationResult(items, Some("https://host/spaces/x?sync_token=ABC123"), nextPageUrl),
      "https://host/spaces/x", "ABC123");
  }

  /** `SyncToken` reads only the next-sync URL; `HasMoreResults` only the next-page URL. */
  lemma DerivedValuesIndependent<T>(r1: SynchronizationResult<T>, r2: SynchronizationResult<T>)
    ensures r1.nextSyncUrl == r2.nextSyncUrl ==> r1.SyncToken() == r2.SyncToken()
    ensures r1.nextPageUrl == r2.nextPageUrl ==> r1.HasMoreResults() == r2.HasMoreResults()
  {
  }

  /** `HasMoreResults` holds exactly when the next-page URL is a non-empty string. */
  lemma HasMoreResultsMeaning<T>(r: SynchronizationResult<T>)
    ensures r.HasMoreResults() <==> exists url :: r.nextPageUrl == Some(url) && |url| > 0
  {
    if r.HasMoreResults() {
      assert r.nextPageUrl == Some(r.nextPageUrl.value) && |r.nextPageUrl.value| > 0;
    }
  }

  /**
   * Nothing keeps the two URLs apart: a result may say that more pages follow
   * and carry a sync token at the same time.
   */
  lemma BothUrlsMayBeSet<T>(items: seq<T>)
    ensures var r := SynchronizationResult(items, Some("https://h/s?sync_token=t1"), Some("https://h/s?sync_token=t2"));
      r.HasMoreResults() && r.SyncToken() == Success(Some("t1"))
  {
    var r := SynchronizationResult(items, Some("https://h/s?sync_token=t1"), Some("https://h/s?sync_token=t2"));
    assert "https://h/s?sync_token=t1" == "https://h/s" + "?sync_token=" + "t1";
    SyncTokenRoundTrip(r, "https://h/s", "t1");
  }

  /**
   * A non-empty next-sync URL without a query, such as
   * `https://host/spaces/x`, makes `SyncToken` fail: the empty query splits
   * into one piece, so there is no piece `[1]`.
   */
  lemma SyncTokenWithoutQuery<T>(r: SynchronizationResult<T>, path: string, fragment: string)
    requires '?' !in path && '#' !in path
    requires fragment == [] || fragment[0] == '#'
    requires r.nextSyncUrl == Some(path + fragment) && |path + fragment| > 0
    ensures r.SyncToken() == Failure(IndexOutOfRange)
  {
    QueryEmpty(path, fragment);
  }
}
