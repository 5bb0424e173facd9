/** The search for `released on ([\d\-\:TZ]+)` in a release body: the
    leftmost occurrence of the marker followed by at least one timestamp
    character, with the greedy run of such characters as the captured group. */
module CommitDate {
  import opened Wrappers

  const Marker: string := "released on "

  /** The character class `[\d\-\:TZ]`, with ASCII digits. */
  predicate IsStampChar(c: char)
  {
    ('0' <= c <= '9') || c == '-' || c == ':' || c == 'T' || c == 'Z'
  }

  /** The pattern matches starting at position `i`. */
  predicate MatchAt(body: string, i: nat)
  {
    i + |Marker| < |body| && body[i..i + |Marker|] == Marker && IsStampChar(body[i + |Marker|])
  }

  /** End of the run of timestamp characters that starts at `k`. */
  function RunEnd(body: string, k: nat): (e: nat)
    requires k <= |body|
    ensures k <= e <= |body|
    ensures forall j :: k <= j < e ==> IsStampChar(body[j])
    ensures e < |body| ==> !IsStampChar(body[e])
    decreases |body| - k
  {
    if k == |body| || !IsStampChar(body[k]) then k else RunEnd(body, k + 1)
  }

  /** The leftmost match at or after `i`, or `|body|` when there is none. */
  function FirstMatch(body: string, i: nat): (p: nat)
    requires i <= |body|
    ensures i <= p <= |body|
    ensures p < |body| ==> MatchAt(body, p)
    ensures forall k :: i <= k < p ==> !MatchAt(body, k)
    decreases |body| - i
  {
    if i == |body| || MatchAt(body, i) then i else FirstMatch(body, i + 1)
  }

  /** The captured timestamp text of the first match, if any. */
  function CommitStamp(body: string): (r: Option<string>)
    ensures r.None? <==> forall k :: 0 <= k < |body| ==> !MatchAt(body, k)
    ensures r.Some? ==> 1 <= |r.value| && forall j :: 0 <= j < |r.value| ==> IsStampChar(r.value[j])
  {
    var p := FirstMatch(body, 0);
    if p == |body| then None
    else
      var start := p + |Marker|;
      var e := RunEnd(body, start);
      assert forall j :: 0 <= j < e - start ==> body[start..e][j] == body[start + j];
      Some(body[start..e])
  }

  /** Given the position of the leftmost match, the stamp is the longest run
      of timestamp characters right after the marker there. */
  lemma CommitStampAt(body: string, p: nat)
    requires MatchAt(body, p)
    requires forall k :: 0 <= k < p ==> !MatchAt(body, k)
    ensures CommitStamp(body).Some?
    ensures var s := CommitStamp(body).value;
      p + |Marker| + |s| <= |body|
      && body[p..p + |Marker| + |s|] == Marker + s
      && (p + |Marker| + |s| < |body| ==> !IsStampChar(body[p + |Marker| + |s|]))
  {
    var q := FirstMatch(body, 0);
    assert q == p;
    var start := p + |Marker|;
    var e := RunEnd(body, start);
    assert body[p..e] == body[p..start] + body[start..e];
  }

  /** A body made of text without a match, the marker, a run of timestamp
      characters and text that does not continue the run yields that run. */
  lemma StampAfterMarker(prefix: string, stamp: string, rest: string)
    requires forall k :: 0 <= k < |prefix| ==> !MatchAt(prefix + Marker + stamp + rest, k)
    requires 1 <= |stamp| && forall j :: 0 <= j < |stamp| ==> IsStampChar(stamp[j])
    requires |rest| > 0 ==> !IsStampChar(rest[0])
    ensures CommitStamp(prefix + Marker + stamp + rest) == Some(stamp)
  {
    var body := prefix + Marker + stamp + rest;
    var p := |prefix|;
    assert body[p..p + |Marker|] == Marker;
    assert body[p + |Marker|] == stamp[0];
    assert MatchAt(body, p);
    CommitStampAt(body, p);
    var s := CommitStamp(body).value;
    var e := p + |Marker| + |s|;
    assert body[p + |Marker|..e] == s;
    var start := p + |Marker|;
    assert forall j :: 0 <= j < |stamp| ==> body[start + j] == stamp[j];
    assert |rest| > 0 ==> body[start + |stamp|] == rest[0];
    assert forall j :: 0 <= j < |s| ==> s[j] == body[start + j];
    assert |s| == |stamp|;
    assert body[p + |Marker|..p + |Marker| + |stamp|] == stamp;
  }

  /** The release body `CI: released on 2022-05-01T12:00:00Z.` yields its
      timestamp `2022-05-01T12:00:00Z`. */
  lemma ReleasedOnExample()
    ensures CommitStamp("CI: " + Marker + "2022-05-01T12:00:00Z" + ".") == Some("2022-05-01T12:00:00Z")
  {
    var prefix, stamp, rest := "CI: ", "2022-05-01T12:00:00Z", ".";
    forall k | 0 <= k < |prefix| ensures !MatchAt(prefix + Marker + stamp + rest, k) {
      assert (prefix + Marker + stamp + rest)[k + 4] != Marker[4];
    }
    StampAfterMarker(prefix, stamp, rest);
  }

  /** A body without the phrase yields no stamp (and no error). */
  lemma NoPhraseExample()
    ensures CommitStamp("Nightly build").None?
  {
    var body := "Nightly build";
    assert !MatchAt(body, 0) by { assert body[0] != Marker[0]; }
  }
}
