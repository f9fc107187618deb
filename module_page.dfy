/** `ModulePage.jsx`: `extractYouTubeId`, which turns a stored video link
    into the id the embedded player needs. Its three regular expressions are
    written out as scanners with the matching rules of JavaScript's engine:
    the greedy leading `.*` cannot cross a line terminator and settles on the
    rightmost place where the marker matches; the capture group then takes
    the longest run of characters other than `#`, `&` and `?`. */
module ModulePage {
  import opened Common
  import opened Text

  /** The characters `.` does not match. */
  predicate IsLineTerminator(c: char) {
    c == '\n' || c == '\r' || c == '\U{2028}' || c == '\U{2029}'
  }

  /** `\w`. */
  predicate IsWordChar(c: char) {
    'A' <= c <= 'Z' || 'a' <= c <= 'z' || '0' <= c <= '9' || c == '_'
  }

  /** The characters the capture group `[^#&?]*` stops at. */
  predicate Stops(c: char) {
    c == '#' || c == '&' || c == '?'
  }

  predicate LiteralAt(s: string, p: nat, lit: string) {
    p + |lit| <= |s| && s[p..p + |lit|] == lit
  }

  /** `youtu.be\/`, where the unescaped dot is any character but a line
      terminator. */
  predicate ShortMarkerAt(s: string, p: nat) {
    p + 9 <= |s| && s[p..p + 5] == "youtu" && !IsLineTerminator(s[p + 5]) && s[p + 6..p + 9] == "be/"
  }

  /** `\/u\/\w\/`. */
  predicate UserMarkerAt(s: string, p: nat) {
    p + 5 <= |s| && s[p..p + 3] == "/u/" && IsWordChar(s[p + 3]) && s[p + 4] == '/'
  }

  /** The three expressions: the general one (`regExp1`), the short-link
      one (`regExp2`) and the embed one (`regExp3`). */
  datatype Pattern = General | ShortLink | EmbedLink

  /** The length of the marker the pattern matches at `p`, trying the
      alternatives of `regExp1` in their written order. */
  function MarkerLen(pat: Pattern, s: string, p: nat): (r: Option<nat>)
    ensures r.Some? ==> r.value >= 2 && p + r.value <= |s|
    ensures r.Some? ==> !IsLineTerminator(s[p])
  {
    match pat
    case General =>
      if ShortMarkerAt(s, p) then Some(9)
      else if LiteralAt(s, p, "v/") then Some(2)
      else if UserMarkerAt(s, p) then Some(5)
      else if LiteralAt(s, p, "embed/") then Some(6)
      else if LiteralAt(s, p, "watch?") then Some(6)
      else None
    case ShortLink => if ShortMarkerAt(s, p) then Some(9) else None
    case EmbedLink => if LiteralAt(s, p, "/embed/") then Some(7) else None
  }

  /** The end of the first line: where the leading `.*` has to stop. */
  function LineEnd(s: string): (e: nat)
    ensures e <= |s| && (e < |s| ==> IsLineTerminator(s[e]))
    ensures forall i :: 0 <= i < e ==> !IsLineTerminator(s[i])
  {
    if s == [] || IsLineTerminator(s[0]) then 0 else 1 + LineEnd(s[1..])
  }

  /** The rightmost position below `n` where the pattern's marker matches. */
  function LastMarker(pat: Pattern, s: string, n: nat): (r: Option<nat>)
    requires n <= |s|
    ensures r.Some? ==> r.value < n && MarkerLen(pat, s, r.value).Some?
    ensures r.Some? ==> forall q :: r.value < q < n ==> MarkerLen(pat, s, q).None?
    ensures r.None? ==> forall q :: 0 <= q < n ==> MarkerLen(pat, s, q).None?
  {
    if n == 0 then None
    else if MarkerLen(pat, s, n - 1).Some? then Some(n - 1)
    else LastMarker(pat, s, n - 1)
  }

  /** Where the capture group starts once the marker at `p` has matched:
      right after it, except that `regExp1` first takes an optional `?`, an
      optional `v` and an optional `=`, greedily. */
  function GroupStart(pat: Pattern, s: string, p: nat): (g: nat)
    requires MarkerLen(pat, s, p).Some?
    ensures p + MarkerLen(pat, s, p).value <= g <= |s|
  {
    var q := p + MarkerLen(pat, s, p).value;
    if pat != General then q
    else
      var q1 := if q < |s| && s[q] == '?' then q + 1 else q;
      var q2 := if q1 < |s| && s[q1] == 'v' then q1 + 1 else q1;
      if q2 < |s| && s[q2] == '=' then q2 + 1 else q2
  }

  /** The end of the longest run from `i` without `#`, `&` or `?`. */
  function RunEnd(s: string, i: nat): (j: nat)
    requires i <= |s|
    ensures i <= j <= |s| && (j < |s| ==> Stops(s[j]))
    ensures forall k :: i <= k < j ==> !Stops(s[k])
    decreases |s| - i
  {
    if i == |s| || Stops(s[i]) then i else RunEnd(s, i + 1)
  }

  /** A successful match: the marker's position and the capture group's
      bounds. */
  datatype Match = Match(marker: nat, start: nat, end: nat)

  /** `url.match(regExp)`. The trailing `.*` always matches, so the match
      fails only when no marker occurs in the first line. */
  function MatchOf(pat: Pattern, s: string): (m: Option<Match>)
    ensures m.None? <==> forall p :: 0 <= p < LineEnd(s) ==> MarkerLen(pat, s, p).None?
    ensures m.Some? ==>
              && m.value.marker < LineEnd(s) && MarkerLen(pat, s, m.value.marker).Some?
              && (forall q :: m.value.marker < q < LineEnd(s) ==> MarkerLen(pat, s, q).None?)
              && m.value.start == GroupStart(pat, s, m.value.marker)
              && m.value.start <= m.value.end <= |s|
              && (forall k :: m.value.start <= k < m.value.end ==> !Stops(s[k]))
              && (m.value.end < |s| ==> Stops(s[m.value.end]))
  {
    match LastMarker(pat, s, LineEnd(s))
    case None => None
    case Some(p) =>
      var g := GroupStart(pat, s, p);
      Some(Match(p, g, RunEnd(s, g)))
  }

  /** The capture group of a successful match. */
  function Group(pat: Pattern, s: string): Option<string> {
    match MatchOf(pat, s)
    case None => None
    case Some(m) => Some(s[m.start..m.end])
  }

  /** `extractYouTubeId(url)`; `None` is `null`, both as argument and as
      result. */
  function ExtractYouTubeId(url: Option<string>): (r: Option<string>)
    ensures url.None? || url.value == "" ==> r.None?
    ensures r.Some? ==> r.value != "" && (forall k :: 0 <= k < |r.value| ==> !Stops(r.value[k]))
                        && Contains(url.value, r.value)
    ensures url.Some? && url.value != "" ==>
              var u := url.value;
              && (Group(General, u).Some? && |Group(General, u).value| == 11 ==> r == Group(General, u))
              && (r.Some? && |r.value| != 11 ==> r == Group(ShortLink, u) || r == Group(EmbedLink, u))
              && (r.None? <==> (Group(General, u).None? || |Group(General, u).value| != 11)
                               && (Group(ShortLink, u).None? || Group(ShortLink, u).value == "")
                               && (Group(EmbedLink, u).None? || Group(EmbedLink, u).value == ""))
  {
    if url.None? || url.value == "" then None
    else
      var u := url.value;
      var m1 := Group(General, u);
      if m1.Some? && |m1.value| == 11 then GroupInside(General, u); m1
      else
        var m2 := Group(ShortLink, u);
        if m2.Some? && m2.value != "" then GroupInside(ShortLink, u); m2
        else
          var m3 := Group(EmbedLink, u);
          if m3.Some? && m3.value != "" then GroupInside(EmbedLink, u); m3
          else None
  }

  /** A capture group is a piece of the link without `#`, `&` or `?`. */
  lemma GroupInside(pat: Pattern, s: string)
    requires Group(pat, s).Some?
    ensures var g := Group(pat, s).value;
            Contains(s, g) && forall k :: 0 <= k < |g| ==> !Stops(g[k])
  {
    var m := MatchOf(pat, s).value;
    assert OccursAt(s, s[m.start..m.end], m.start);
  }

  /** The short-link fallback, when it answers, answers with the non-empty
      run after the last `youtu?be/` of the first line; so does the embed
      fallback with the last `/embed/`. */
  lemma FallbackTakesLastMarker(pat: Pattern, s: string)
    requires pat != General && Group(pat, s).Some? && Group(pat, s).value != ""
    ensures var m := MatchOf(pat, s).value;
            && (pat == ShortLink ==> ShortMarkerAt(s, m.marker) && m.start == m.marker + 9)
            && (pat == EmbedLink ==> LiteralAt(s, m.marker, "/embed/") && m.start == m.marker + 7)
            && (forall q :: m.marker < q < LineEnd(s) ==> MarkerLen(pat, s, q).None?)
            && m.start < m.end
  {
  }

  /** The search from `n` downwards finds `p` when the marker matches there
      and nowhere between. */
  lemma {:induction false} LastMarkerAt(pat: Pattern, s: string, n: nat, p: nat)
    requires p < n <= |s| && MarkerLen(pat, s, p).Some?
    requires forall q :: p < q < n ==> MarkerLen(pat, s, q).None?
    ensures LastMarker(pat, s, n) == Some(p)
    decreases n
  {
    if n - 1 != p {
      LastMarkerAt(pat, s, n - 1, p);
    }
  }

  /** No marker of `regExp1` starts at `q` when no `/` follows from `q` on
      and no `?` from `q + 5` on. */
  lemma NoGeneralMarker(s: string, q: nat)
    requires forall i :: q <= i < |s| ==> s[i] != '/'
    requires forall i :: q + 5 <= i < |s| ==> s[i] != '?'
    ensures MarkerLen(General, s, q).None?
  {
    assert q + 9 <= |s| ==> s[q + 6..q + 9][2] == s[q + 8];
    assert q + 6 <= |s| ==> s[q..q + 6][5] == s[q + 5];
    assert q + 2 <= |s| ==> s[q..q + 2][1] == s[q + 1];
  }

  /** A watch link: the last `watch?v=` of a one-line link, followed by an
      eleven-character id without `#`, `&`, `?` or `/`, gives that id. */
  lemma WatchLinkId(base: string, id: string)
    requires forall i :: 0 <= i < |base| ==> !IsLineTerminator(base[i])
    requires |id| == 11
    requires forall i :: 0 <= i < |id| ==> !Stops(id[i]) && id[i] != '/' && !IsLineTerminator(id[i])
    ensures ExtractYouTubeId(Some(base + "watch?v=" + id)) == Some(id)
  {
    var s := base + "watch?v=" + id;
    var n := |base|;
    WatchMatch(base, id);
    assert s[n + 8..|s|] == id;
    assert Group(General, s) == Some(id);
  }

  /** The match of such a link: the marker at the `watch?`, the group from
      after `v=` to the end. */
  lemma WatchMatch(base: string, id: string)
    requires forall i :: 0 <= i < |base| ==> !IsLineTerminator(base[i])
    requires forall i :: 0 <= i < |id| ==> !Stops(id[i]) && id[i] != '/' && !IsLineTerminator(id[i])
    ensures var s := base + "watch?v=" + id;
            MatchOf(General, s) == Some(Match(|base|, |base| + 8, |s|))
  {
    var s := base + "watch?v=" + id;
    var n := |base|;
    assert s[n..n + 8] == "watch?v=";
    WatchMarker(s, n);
    WatchLineEnd(base, id);
    NoLaterMarker(base, id);
    LastMarkerAt(General, s, |s|, n);
    assert forall i :: n + 8 <= i < |s| ==> s[i] == id[i - n - 8];
    assert RunEnd(s, n + 8) == |s|;
  }

  /** Such a link is one line. */
  lemma WatchLineEnd(base: string, id: string)
    requires forall i :: 0 <= i < |base| ==> !IsLineTerminator(base[i])
    requires forall i :: 0 <= i < |id| ==> !IsLineTerminator(id[i])
    ensures LineEnd(base + "watch?v=" + id) == |base + "watch?v=" + id|
  {
    var s := base + "watch?v=" + id;
    var n := |base|;
    assert forall i :: n <= i < n + 8 ==> s[i] == "watch?v="[i - n];
    assert forall i :: n + 8 <= i < |s| ==> s[i] == id[i - n - 8];
    assert forall i :: 0 <= i < n ==> s[i] == base[i];
    assert forall i :: 0 <= i < |s| ==> !IsLineTerminator(s[i]);
  }

  /** No marker of `regExp1` starts after the `watch?`. */
  lemma NoLaterMarker(base: string, id: string)
    requires forall i :: 0 <= i < |id| ==> id[i] != '/' && !Stops(id[i])
    ensures var s := base + "watch?v=" + id;
            forall q :: |base| < q < |s| ==> MarkerLen(General, s, q).None?
  {
    var s := base + "watch?v=" + id;
    var n := |base|;
    assert forall i :: n <= i < n + 8 ==> s[i] == "watch?v="[i - n];
    assert forall i :: n + 8 <= i < |s| ==> s[i] == id[i - n - 8];
    forall q | n < q < |s|
      ensures MarkerLen(General, s, q).None?
    {
      NoGeneralMarker(s, q);
    }
  }

  /** `watch?v=` at `n`: the marker is `watch?` and the group starts after
      `v=`. */
  lemma WatchMarker(s: string, n: nat)
    requires n + 8 <= |s| && s[n..n + 8] == "watch?v="
    ensures MarkerLen(General, s, n) == Some(6) && GroupStart(General, s, n) == n + 8
  {
    assert s[n] == s[n..n + 8][0] == 'w';
    assert s[n + 6] == s[n..n + 8][6] == 'v';
    assert s[n + 7] == s[n..n + 8][7] == '=';
    assert !ShortMarkerAt(s, n) by { assert s[n..n + 5][0] == s[n]; }
    assert !LiteralAt(s, n, "v/") by { assert s[n..n + 2][0] == s[n]; }
    assert !UserMarkerAt(s, n) by { assert s[n..n + 3][0] == s[n]; }
    assert !LiteralAt(s, n, "embed/") by { assert s[n..n + 6][0] == s[n]; }
    assert s[n..n + 6] == s[n..n + 8][..6];
    assert LiteralAt(s, n, "watch?");
  }
}
