/** YouTube links (utils/youtube.ts): the video id found by the pattern
    `(?:youtu\.be\/|youtube\.com\/(?:embed\/|v\/|watch\?v=|watch\?.+&v=))([^&?]+)`
    and the embed address built from it. The pattern is searched for without
    anchors, so the match starting leftmost wins; at one position the
    alternatives are tried in the order written, `.+` first takes as much
    as it can and then gives back, and the id is as long as it can be. */
module YouTube {
  import opened Wrappers

  // ---------------------------------------------------------------------
  // Pieces of the pattern
  // ---------------------------------------------------------------------

  /** `[^&?]`. */
  predicate IdChar(c: char)
  {
    c != '&' && c != '?'
  }

  /** The characters `.` does not match without the `s` flag. */
  predicate IsLineTerminator(c: char)
  {
    c == '\n' || c == '\r' || c == '\U{2028}' || c == '\U{2029}'
  }

  predicate StartsAt(s: string, i: nat, p: string)
  {
    i + |p| <= |s| && s[i..i + |p|] == p
  }

  /** An id character at `j`, so that `([^&?]+)` can start there. */
  predicate IdStart(s: string, j: nat)
  {
    j < |s| && IdChar(s[j])
  }

  /** `([^&?]+)` at `j`: the longest run of id characters. */
  function Run(s: string, j: nat): (r: string)
    requires j <= |s|
    ensures j + |r| <= |s| && r == s[j..j + |r|]
    ensures forall t :: 0 <= t < |r| ==> IdChar(r[t])
    ensures j + |r| == |s| || !IdChar(s[j + |r|])
    decreases |s| - j
  {
    if j < |s| && IdChar(s[j]) then
      var rest := Run(s, j + 1);
      assert s[j..j + 1 + |rest|] == [s[j]] + s[j + 1..j + 1 + |rest|];
      [s[j]] + rest
    else ""
  }

  /** A run of id characters that cannot be extended is the one `Run`
      finds. */
  lemma {:induction false} RunIsUnique(s: string, j: nat, n: nat)
    requires j + n <= |s|
    requires forall t :: j <= t < j + n ==> IdChar(s[t])
    requires j + n == |s| || !IdChar(s[j + n])
    ensures Run(s, j) == s[j..j + n]
    decreases n
  {
    if n > 0 {
      RunIsUnique(s, j + 1, n - 1);
      assert s[j..j + n] == [s[j]] + s[j + 1..j + n];
    }
  }

  lemma RunIsMaximal(s: string, j: nat)
    requires IdStart(s, j)
    ensures IsMaximalRun(s, j, Run(s, j))
  {
    assert Run(s, j)[0] == s[j];
  }

  /** The capture group at `j`: it fails unless at least one id character
      follows. */
  function Capture(s: string, j: nat): (r: Option<string>)
    requires j <= |s|
    ensures r.Some? <==> IdStart(s, j)
    ensures r.Some? ==> r.value == Run(s, j) && |r.value| > 0
  {
    if IdStart(s, j) then Some(Run(s, j)) else None
  }

  /** A literal piece of the pattern at `i`, then the capture. */
  function AfterLiteral(s: string, i: nat, p: string): (r: Option<string>)
    requires i <= |s|
    ensures r.Some? <==> StartsAt(s, i, p) && IdStart(s, i + |p|)
    ensures r.Some? ==> r == Capture(s, i + |p|)
  {
    if StartsAt(s, i, p) then Capture(s, i + |p|) else None
  }

  /** The first alternative that matches. */
  function Or(a: Option<string>, b: Option<string>): (r: Option<string>)
    ensures r.Some? <==> a.Some? || b.Some?
    ensures a.Some? ==> r == a
    ensures a.None? ==> r == b
  {
    if a.Some? then a else b
  }

  /** The first line terminator at or after `q`, or the end: how far `.+`
      can reach from `q`. */
  function ReachOfDot(s: string, q: nat): (e: nat)
    requires q <= |s|
    ensures q <= e <= |s|
    ensures forall t :: q <= t < e ==> !IsLineTerminator(s[t])
    ensures e < |s| ==> IsLineTerminator(s[e])
    decreases |s| - q
  {
    if q == |s| || IsLineTerminator(s[q]) then q else ReachOfDot(s, q + 1)
  }

  /** `&v=` at `m` with an id character after it: a place where the
      `watch?.+&v=` alternative can end and the capture start. */
  predicate AmpVAt(s: string, m: nat)
  {
    StartsAt(s, m, "&v=") && IdStart(s, m + 3)
  }

  /** `.+&v=` after `watch?`, starting at `q`, with `.+` ending before `k`
      at the latest: the backtracking tries the longest `.+` first, so the
      `&v=` that counts is the last one from which the capture succeeds. */
  function LastAmpV(s: string, q: nat, k: int): (r: Option<string>)
    requires q <= |s| && k <= |s|
    ensures r.None? <==> forall m :: q < m <= k ==> !AmpVAt(s, m)
    ensures r.Some? ==> exists m :: (q < m <= k && AmpVAt(s, m) && r == Capture(s, m + 3)
                                     && forall m' :: m < m' <= k ==> !AmpVAt(s, m'))
    decreases k
  {
    if k <= q then None
    else if AmpVAt(s, k) then Capture(s, k + 3)
    else LastAmpV(s, q, k - 1)
  }

  /** The alternatives after `youtube.com/`, at `q`, in the order the
      pattern lists them. */
  function AfterLongHost(s: string, q: nat): (r: Option<string>)
    requires q <= |s|
  {
    Or(AfterLiteral(s, q, "embed/"),
       Or(AfterLiteral(s, q, "v/"),
          Or(AfterLiteral(s, q, "watch?v="),
             if StartsAt(s, q, "watch?") then LastAmpV(s, q + 6, ReachOfDot(s, q + 6)) else None)))
  }

  /** The pattern tried at position `i` only. */
  function MatchAt(s: string, i: nat): (r: Option<string>)
    requires i <= |s|
  {
    Or(AfterLiteral(s, i, "youtu.be/"),
       if StartsAt(s, i, "youtube.com/") then AfterLongHost(s, i + 12) else None)
  }

  /** The unanchored search from position `i` on. */
  function SearchFrom(s: string, i: nat): (r: Option<string>)
    requires i <= |s|
    decreases |s| - i
  {
    if MatchAt(s, i).Some? then MatchAt(s, i)
    else if i == |s| then None
    else SearchFrom(s, i + 1)
  }

  /** `getYouTubeId`: the capture of the leftmost match, or `null`. */
  function GetYouTubeId(url: string): (id: Option<string>)
  {
    SearchFrom(url, 0)
  }

  // ---------------------------------------------------------------------
  // What the pattern means
  // ---------------------------------------------------------------------

  /** One of the four fixed prefixes stands at `i` and ends at `j`. */
  predicate FixedPrefix(s: string, i: nat, j: nat)
  {
    (StartsAt(s, i, "youtu.be/") && j == i + 9)
    || (StartsAt(s, i, "youtube.com/embed/") && j == i + 18)
    || (StartsAt(s, i, "youtube.com/v/") && j == i + 14)
    || (StartsAt(s, i, "youtube.com/watch?v=") && j == i + 20)
  }

  /** `youtube.com/watch?`, then at least one character other than a line
      terminator, then `&v=` at `m`. */
  predicate WatchAmpPrefix(s: string, i: nat, m: nat)
  {
    StartsAt(s, i, "youtube.com/watch?") && i + 18 < m && StartsAt(s, m, "&v=")
    && forall t :: i + 18 <= t < m ==> !IsLineTerminator(s[t])
  }

  /** A prefix of the pattern stands at `i` and ends at `j`. */
  predicate PrefixEndsAt(s: string, i: nat, j: nat)
  {
    FixedPrefix(s, i, j) || (j >= 3 && WatchAmpPrefix(s, i, j - 3))
  }

  /** A match can start at `i`: some prefix there is followed by an id
      character. */
  ghost predicate MatchStartsAt(s: string, i: nat)
  {
    exists j: nat :: PrefixEndsAt(s, i, j) && IdStart(s, j)
  }

  /** The id is a maximal run of id characters starting at `j`. */
  predicate IsMaximalRun(s: string, j: nat, id: string)
  {
    |id| > 0 && j + |id| <= |s| && s[j..j + |id|] == id
    && (forall t :: 0 <= t < |id| ==> IdChar(id[t]))
    && (j + |id| == |s| || !IdChar(s[j + |id|]))
  }

  lemma StartsAtConcat(s: string, i: nat, p: string, q: string)
    ensures StartsAt(s, i, p + q) <==> StartsAt(s, i, p) && StartsAt(s, i + |p|, q)
  {
    if StartsAt(s, i, p) && StartsAt(s, i + |p|, q) {
      assert s[i..i + |p + q|] == s[i..i + |p|] + s[i + |p|..i + |p| + |q|];
    }
    if StartsAt(s, i, p + q) {
      assert s[i..i + |p|] == (p + q)[..|p|];
      assert s[i + |p|..i + |p| + |q|] == (p + q)[|p|..];
    }
  }

  /** The `watch?.+&v=` alternative at `q` (just after `youtube.com/`) is
      exactly the `WatchAmpPrefix` reading. */
  lemma WatchAmpAlternative(s: string, i: nat)
    requires StartsAt(s, i, "youtube.com/") && StartsAt(s, i + 12, "watch?")
    ensures var r := LastAmpV(s, i + 18, ReachOfDot(s, i + 18));
      (r.Some? <==> exists m: nat :: WatchAmpPrefix(s, i, m) && IdStart(s, m + 3))
      && (r.Some? ==> exists m: nat :: WatchAmpPrefix(s, i, m) && r == Capture(s, m + 3))
  {
    WatchHostLiteral(s, i);
    WatchAmpFound(s, i);
    WatchAmpMissing(s, i);
  }

  lemma WatchHostLiteral(s: string, i: nat)
    requires StartsAt(s, i, "youtube.com/") && StartsAt(s, i + 12, "watch?")
    ensures StartsAt(s, i, "youtube.com/watch?")
  {
    StartsAtConcat(s, i, "youtube.com/", "watch?");
    assert "youtube.com/" + "watch?" == "youtube.com/watch?";
  }

  lemma WatchAmpFound(s: string, i: nat)
    requires StartsAt(s, i, "youtube.com/watch?")
    ensures var r := LastAmpV(s, i + 18, ReachOfDot(s, i + 18));
      r.Some? ==> exists m: nat :: WatchAmpPrefix(s, i, m) && IdStart(s, m + 3) && r == Capture(s, m + 3)
  {
    var e := ReachOfDot(s, i + 18);
    var r := LastAmpV(s, i + 18, e);
    if r.Some? {
      var m :| i + 18 < m <= e && AmpVAt(s, m) && r == Capture(s, m + 3)
        && forall m' :: m < m' <= e ==> !AmpVAt(s, m');
      assert WatchAmpPrefix(s, i, m);
    }
  }

  lemma WatchAmpMissing(s: string, i: nat)
    requires StartsAt(s, i, "youtube.com/watch?")
    ensures LastAmpV(s, i + 18, ReachOfDot(s, i + 18)).None? ==>
      forall m: nat :: WatchAmpPrefix(s, i, m) ==> !IdStart(s, m + 3)
  {
    var e := ReachOfDot(s, i + 18);
    if LastAmpV(s, i + 18, e).None? {
      forall m: nat | WatchAmpPrefix(s, i, m)
        ensures !IdStart(s, m + 3)
      {
        assert m <= e;
        assert !AmpVAt(s, m);
      }
    }
  }

  /** The fixed alternatives after `youtube.com/` are the fixed prefixes
      that begin with it. */
  lemma LongHostLiterals(s: string, i: nat)
    requires i + 12 <= |s|
    ensures StartsAt(s, i, "youtube.com/embed/") <==> StartsAt(s, i, "youtube.com/") && StartsAt(s, i + 12, "embed/")
    ensures StartsAt(s, i, "youtube.com/v/") <==> StartsAt(s, i, "youtube.com/") && StartsAt(s, i + 12, "v/")
    ensures StartsAt(s, i, "youtube.com/watch?v=") <==> StartsAt(s, i, "youtube.com/") && StartsAt(s, i + 12, "watch?v=")
    ensures StartsAt(s, i, "youtube.com/watch?") <==> StartsAt(s, i, "youtube.com/") && StartsAt(s, i + 12, "watch?")
  {
    StartsAtConcat(s, i, "youtube.com/", "embed/");
    StartsAtConcat(s, i, "youtube.com/", "v/");
    StartsAtConcat(s, i, "youtube.com/", "watch?v=");
    StartsAtConcat(s, i, "youtube.com/", "watch?");
    assert "youtube.com/" + "embed/" == "youtube.com/embed/";
    assert "youtube.com/" + "v/" == "youtube.com/v/";
    assert "youtube.com/" + "watch?v=" == "youtube.com/watch?v=";
    assert "youtube.com/" + "watch?" == "youtube.com/watch?";
  }

  /** Every prefix of the long host begins with `youtube.com/`. */
  lemma LongPrefixHasHost(s: string, i: nat, j: nat)
    requires PrefixEndsAt(s, i, j) && !(StartsAt(s, i, "youtu.be/") && j == i + 9)
    ensures StartsAt(s, i, "youtube.com/")
  {
    if StartsAt(s, i, "youtube.com/embed/") || StartsAt(s, i, "youtube.com/v/")
       || StartsAt(s, i, "youtube.com/watch?v=") || StartsAt(s, i, "youtube.com/watch?") {
      LongHostLiterals(s, i);
    }
  }

  /** The two hosts differ in their sixth character, so at most one of them
      stands at a position. */
  lemma HostsExclusive(s: string, i: nat)
    ensures !(StartsAt(s, i, "youtu.be/") && StartsAt(s, i, "youtube.com/"))
  {
    assert StartsAt(s, i, "youtu.be/") ==> s[i + 5] == "youtu.be/"[5];
    assert StartsAt(s, i, "youtube.com/") ==> s[i + 5] == "youtube.com/"[5];
  }

  /** Behind `youtube.com/` the alternatives match exactly when one of the
      long prefixes there is followed by an id character, and capture the
      run after one of them. */
  lemma LongHostMeaning(s: string, i: nat)
    requires StartsAt(s, i, "youtube.com/")
    ensures AfterLongHost(s, i + 12).Some? <==> MatchStartsAt(s, i) || (StartsAt(s, i, "youtu.be/") && IdStart(s, i + 9))
    ensures AfterLongHost(s, i + 12).Some? ==>
      exists j: nat :: PrefixEndsAt(s, i, j) && IdStart(s, j) && AfterLongHost(s, i + 12).value == Run(s, j)
  {
    HostsExclusive(s, i);
    LongHostLiterals(s, i);
    if StartsAt(s, i + 12, "watch?") {
      WatchAmpAlternative(s, i);
    }
    var r := AfterLongHost(s, i + 12);
    if r.Some? {
      if AfterLiteral(s, i + 12, "embed/").Some? {
        assert PrefixEndsAt(s, i, i + 18);
      } else if AfterLiteral(s, i + 12, "v/").Some? {
        assert PrefixEndsAt(s, i, i + 14);
      } else if AfterLiteral(s, i + 12, "watch?v=").Some? {
        assert PrefixEndsAt(s, i, i + 20);
      } else {
        var m: nat :| WatchAmpPrefix(s, i, m) && r == Capture(s, m + 3);
        assert PrefixEndsAt(s, i, m + 3);
      }
    }
    if MatchStartsAt(s, i) {
      var j: nat :| PrefixEndsAt(s, i, j) && IdStart(s, j);
      if !FixedPrefix(s, i, j) {
        assert WatchAmpPrefix(s, i, j - 3);
      }
    }
  }

  /** Where `youtu.be/` stands, it is the only prefix. */
  lemma ShortHostOnly(s: string, i: nat)
    requires StartsAt(s, i, "youtu.be/")
    ensures forall j: nat :: PrefixEndsAt(s, i, j) ==> j == i + 9
  {
    HostsExclusive(s, i);
    forall j: nat | PrefixEndsAt(s, i, j)
      ensures j == i + 9
    {
      if j != i + 9 {
        LongPrefixHasHost(s, i, j);
      }
    }
  }

  /** The pattern at one position: it matches exactly when a prefix there is
      followed by an id character, and then captures the maximal run after
      one of the prefixes standing there. */
  lemma MatchAtMeaning(s: string, i: nat)
    requires i <= |s|
    ensures MatchAt(s, i).Some? <==> MatchStartsAt(s, i)
    ensures MatchAt(s, i).Some? ==>
      exists j: nat :: PrefixEndsAt(s, i, j) && IsMaximalRun(s, j, MatchAt(s, i).value)
  {
    HostsExclusive(s, i);
    if StartsAt(s, i, "youtu.be/") {
      ShortHostOnly(s, i);
      assert PrefixEndsAt(s, i, i + 9);
      if MatchAt(s, i).Some? {
        RunIsMaximal(s, i + 9);
      }
    } else if StartsAt(s, i, "youtube.com/") {
      LongHostMeaning(s, i);
      assert MatchAt(s, i) == AfterLongHost(s, i + 12);
      if MatchAt(s, i).Some? {
        var j: nat :| PrefixEndsAt(s, i, j) && IdStart(s, j) && AfterLongHost(s, i + 12).value == Run(s, j);
        RunIsMaximal(s, j);
      }
    } else if MatchStartsAt(s, i) {
      var j: nat :| PrefixEndsAt(s, i, j) && IdStart(s, j);
      LongPrefixHasHost(s, i, j);
    }
  }

  /** The search finds the match that starts leftmost from `i` on. */
  lemma {:induction false} SearchFromMeaning(s: string, i: nat)
    requires i <= |s|
    ensures SearchFrom(s, i).None? <==> forall t :: i <= t <= |s| ==> !MatchStartsAt(s, t)
    ensures SearchFrom(s, i).Some? ==> exists t :: (i <= t <= |s| && SearchFrom(s, i) == MatchAt(s, t)
                                                    && forall t' :: i <= t' < t ==> !MatchStartsAt(s, t'))
    decreases |s| - i
  {
    MatchAtMeaning(s, i);
    if MatchAt(s, i).None? && i < |s| {
      SearchFromMeaning(s, i + 1);
      if SearchFrom(s, i).Some? {
        var t :| i + 1 <= t <= |s| && SearchFrom(s, i + 1) == MatchAt(s, t)
          && forall t' :: i + 1 <= t' < t ==> !MatchStartsAt(s, t');
        assert forall t' :: i <= t' < t ==> !MatchStartsAt(s, t');
      }
    }
  }

  /** `getYouTubeId` is `null` exactly when no prefix of the pattern in the
      text is followed by an id character; otherwise the id is non-empty,
      holds neither '&' nor '?', and is the maximal run of such characters
      after a prefix that starts leftmost among all possible matches. */
  lemma YouTubeIdMeaning(url: string)
    ensures GetYouTubeId(url).None? <==> forall i :: 0 <= i <= |url| ==> !MatchStartsAt(url, i)
    ensures GetYouTubeId(url).Some? ==>
      exists i, j :: (0 <= i <= |url| && PrefixEndsAt(url, i, j) && IsMaximalRun(url, j, GetYouTubeId(url).value)
                      && forall t :: 0 <= t < i ==> !MatchStartsAt(url, t))
  {
    SearchFromMeaning(url, 0);
    if GetYouTubeId(url).Some? {
      var i :| 0 <= i <= |url| && SearchFrom(url, 0) == MatchAt(url, i)
        && forall t' :: 0 <= t' < i ==> !MatchStartsAt(url, t');
      MatchAtMeaning(url, i);
      var j :| PrefixEndsAt(url, i, j) && IsMaximalRun(url, j, MatchAt(url, i).value);
    }
  }

  /** A returned id is never empty and never holds '&' or '?'. */
  lemma YouTubeIdShape(url: string)
    ensures GetYouTubeId(url).Some? ==>
      |GetYouTubeId(url).value| > 0 && '&' !in GetYouTubeId(url).value && '?' !in GetYouTubeId(url).value
  {
    YouTubeIdMeaning(url);
    if GetYouTubeId(url).Some? {
      var id := GetYouTubeId(url).value;
      var i, j :| 0 <= i <= |url| && PrefixEndsAt(url, i, j) && IsMaximalRun(url, j, id)
        && forall t :: 0 <= t < i ==> !MatchStartsAt(url, t);
      assert forall t :: 0 <= t < |id| ==> IdChar(id[t]);
    }
  }

  // ---------------------------------------------------------------------
  // Examples
  // ---------------------------------------------------------------------

  /** The short link stops at the query: 'youtu.be/abc?t=1' gives 'abc'. */
  lemma ShortLinkStopsAtQuery()
    ensures GetYouTubeId("youtu.be/abc?t=1") == Some("abc")
  {
    var s := "youtu.be/abc?t=1";
    assert StartsAt(s, 0, "youtu.be/");
    RunIsUnique(s, 9, 3);
    assert s[9..12] == "abc";
  }

  /** At one position `watch?v=` is tried before `watch?.+&v=`, so the first
      `v` wins: 'youtube.com/watch?v=a&v=b' gives 'a'. */
  lemma WatchFirstVWins()
    ensures GetYouTubeId("youtube.com/watch?v=a&v=b") == Some("a")
  {
    var s := "youtube.com/watch?v=a&v=b";
    WatchExampleHost(s);
    WatchExampleAlternative(s);
    assert MatchAt(s, 0) == Some("a");
  }

  lemma WatchExampleHost(s: string)
    requires s == "youtube.com/watch?v=a&v=b"
    ensures !StartsAt(s, 0, "youtu.be/") && StartsAt(s, 0, "youtube.com/")
  {
    var p := "youtu.be/";
    assert s[5] == 'b' && p[5] == '.';
    assert s[..9][5] != p[5];
  }

  lemma WatchExampleAlternative(s: string)
    requires s == "youtube.com/watch?v=a&v=b"
    ensures AfterLongHost(s, 12) == Some("a")
  {
    assert !StartsAt(s, 12, "embed/") by {
      assert s[12] != 'e';
    }
    assert !StartsAt(s, 12, "v/") by {
      assert s[12] != 'v';
    }
    assert StartsAt(s, 12, "watch?v=");
    RunIsUnique(s, 20, 1);
    assert s[20..21] == "a";
    assert AfterLiteral(s, 12, "watch?v=") == Some("a");
  }

  // ---------------------------------------------------------------------
  // The embed address
  // ---------------------------------------------------------------------

  /** `getYouTubeEmbedUrl(url)` with the page's origin as a parameter; no
      step of it can throw, so the `catch` is never taken. */
  function EmbedUrl(id: string, origin: string): (u: string)
    ensures u == "https://www.youtube.com/embed/" + id + "?origin=" + origin
  {
    "https://www.youtube.com/embed/" + id + "?origin=" + origin
  }

  function GetYouTubeEmbedUrl(url: string, origin: string): (r: Option<string>)
    ensures r.None? <==> GetYouTubeId(url).None?
    ensures r.Some? ==> r.value == EmbedUrl(GetYouTubeId(url).value, origin)
  {
    match GetYouTubeId(url)
    case None => None
    case Some(id) => Some(EmbedUrl(id, origin))
  }

  /** `videoUrl ? getYouTubeEmbedUrl(videoUrl) : null` in the video field
      (components/exercises/form/ExerciseVideo.tsx): an empty field shows no
      player. */
  function PlayerUrl(videoUrl: string, origin: string): (r: Option<string>)
    ensures videoUrl == "" ==> r.None?
    ensures videoUrl != "" ==> r == GetYouTubeEmbedUrl(videoUrl, origin)
  {
    if videoUrl == "" then None else GetYouTubeEmbedUrl(videoUrl, origin)
  }

  /** Positions where neither host can start are skipped by the search. */
  lemma {:induction false} SearchSkipsNonY(s: string, i: nat, k: nat)
    requires i <= k <= |s|
    requires forall t :: i <= t < k ==> s[t] != 'y'
    ensures SearchFrom(s, i) == SearchFrom(s, k)
    decreases k - i
  {
    if i < k {
      assert !StartsAt(s, i, "youtu.be/") && !StartsAt(s, i, "youtube.com/") by {
        assert s[i] != 'y';
      }
      SearchSkipsNonY(s, i + 1, k);
    }
  }

  /** The embed address carries the id it was built from: reading the id
      back from it gives the video's id again, whatever the origin. */
  lemma EmbedUrlRoundTrip(url: string, origin: string)
    requires GetYouTubeEmbedUrl(url, origin).Some?
    ensures GetYouTubeId(GetYouTubeEmbedUrl(url, origin).value) == GetYouTubeId(url)
  {
    YouTubeIdShape(url);
    EmbedIdReadsBack(GetYouTubeId(url).value, origin);
  }

  /** Any id without '&' or '?' is read back from its embed address. */
  lemma EmbedIdReadsBack(id: string, origin: string)
    requires |id| > 0 && '&' !in id && '?' !in id
    ensures GetYouTubeId(EmbedUrl(id, origin)) == Some(id)
  {
    var head := "https://www.youtube.com/embed/";
    var u := EmbedUrl(id, origin);
    assert u == head + id + ("?origin=" + origin);
    EmbedHostHasNoEarlyY();
    assert forall t :: 0 <= t < 12 ==> u[t] == head[t];
    SearchSkipsNonY(u, 0, 12);
    IdAfterEmbedHost(u, head, id, "?origin=" + origin);
  }

  lemma EmbedHostHasNoEarlyY()
    ensures forall t :: 0 <= t < 12 ==> "https://www.youtube.com/embed/"[t] != 'y'
  {
    var head := "https://www.youtube.com/embed/";
    assert head[..12] == "https://www.";
  }

  lemma IdAfterEmbedHost(u: string, head: string, id: string, tail: string)
    requires head == "https://www.youtube.com/embed/" && u == head + id + tail
    requires |id| > 0 && '&' !in id && '?' !in id && |tail| > 0 && tail[0] == '?'
    ensures MatchAt(u, 12) == Some(id)
  {
    assert u[12..24] == "youtube.com/";
    assert u[12..21] != "youtu.be/" by {
      assert u[17] != "youtu.be/"[5];
    }
    assert StartsAt(u, 24, "embed/") by {
      assert u[24..30] == "embed/";
    }
    assert u[30..30 + |id|] == id;
    assert forall t :: 30 <= t < 30 + |id| ==> u[t] == id[t - 30];
    assert u[30 + |id|] == '?';
    RunIsUnique(u, 30, |id|);
    assert IdChar(u[30]);
  }
}
