/** The home page of both front ends: the playlist id is taken from a pasted
    link with the regular expression `/playlist\/([^?]+)/`, and submitting the
    form either navigates to the analysis page of that id or shows an error and
    clears the input. */
module PlaylistLink {
  import opened Common

  const Marker := "playlist/"

  const InvalidUrlMessage := "Invalid playlist URL. Please try again."

  const AnalysisPrefix := "/analysis/"

  /** The regular expression can match at `i`: the marker starts there and is
      followed by at least one character other than '?'. */
  predicate Qualifies(url: string, i: nat) {
    i + |Marker| < |url| && url[i..i + |Marker|] == Marker && url[i + |Marker|] != '?'
  }

  /** The end of the run of non-'?' characters starting at `k`: the next '?'
      at or after `k`, or the end of the string. */
  function RunEnd(url: string, k: nat): (e: nat)
    requires k <= |url|
    ensures k <= e <= |url|
    ensures e == |url| || url[e] == '?'
    ensures forall j | k <= j < e :: url[j] != '?'
    decreases |url| - k
  {
    if k == |url| || url[k] == '?' then k else RunEnd(url, k + 1)
  }

  /** The leftmost match at or after `i`, tried position by position as the
      regular-expression search does; the greedy group runs to `RunEnd`. */
  function MatchFrom(url: string, i: nat): Option<string>
    decreases |url| - i
  {
    if i + |Marker| >= |url| then None
    else if Qualifies(url, i) then Some(url[i + |Marker|..RunEnd(url, i + |Marker|)])
    else MatchFrom(url, i + 1)
  }

  /** `url.match(playlistIdRegex)` and its group `match[1]`. */
  function MatchPlaylistId(url: string): Option<string> {
    MatchFrom(url, 0)
  }

  /** The search from `i` finds a match exactly when some position at or
      after `i` qualifies, and then it is the capture at the first such
      position. */
  lemma {:induction false} MatchFromSpec(url: string, i: nat)
    ensures MatchFrom(url, i).Some? <==> exists j: nat :: i <= j && Qualifies(url, j)
    ensures MatchFrom(url, i).Some? ==>
      exists j: nat :: i <= j && Qualifies(url, j) && (forall k: nat | i <= k < j :: !Qualifies(url, k)) &&
        MatchFrom(url, i).value == url[j + |Marker|..RunEnd(url, j + |Marker|)]
    decreases |url| - i
  {
    if i + |Marker| >= |url| {
      assert forall j: nat :: i <= j ==> !Qualifies(url, j);
    } else if Qualifies(url, i) {
    } else {
      MatchFromSpec(url, i + 1);
      if MatchFrom(url, i).Some? {
        var j: nat :| i + 1 <= j && Qualifies(url, j) && (forall k: nat | i + 1 <= k < j :: !Qualifies(url, k)) &&
          MatchFrom(url, i + 1).value == url[j + |Marker|..RunEnd(url, j + |Marker|)];
        assert forall k: nat | i <= k < j :: !Qualifies(url, k);
      } else {
        assert forall j: nat | i <= j :: !Qualifies(url, j);
      }
    }
  }

  /** A match exists exactly when the link contains the marker followed by a
      character other than '?'. */
  lemma MatchExistsIff(url: string)
    ensures MatchPlaylistId(url).Some? <==> exists i: nat :: Qualifies(url, i)
  {
    MatchFromSpec(url, 0);
  }

  /** The captured id is non-empty and has no '?'; it starts right after the
      leftmost qualifying marker and runs to the next '?' or to the end. */
  lemma MatchCapture(url: string)
    requires MatchPlaylistId(url).Some?
    ensures var id := MatchPlaylistId(url).value; |id| > 0 && '?' !in id
    ensures exists i: nat :: CapturedAt(url, i, MatchPlaylistId(url).value)
  {
    MatchFromSpec(url, 0);
    var id := MatchPlaylistId(url).value;
    var i: nat :| Qualifies(url, i) && (forall k: nat | k < i :: !Qualifies(url, k)) &&
      id == url[i + |Marker|..RunEnd(url, i + |Marker|)];
    CaptureAt(url, i);
    var e := i + |Marker| + |id|;
    assert e == RunEnd(url, i + |Marker|);
    assert e <= |url| && id == url[i + |Marker|..e];
    assert e == |url| || url[e] == '?';
    assert CapturedAt(url, i, id);
  }

  /** `i` is the leftmost position where the expression can match, and `id`
      is the text after the marker there, up to the next '?' or the end. */
  predicate CapturedAt(url: string, i: nat, id: string) {
    Qualifies(url, i) && (forall k: nat | k < i :: !Qualifies(url, k)) &&
    i + |Marker| + |id| <= |url| && id == url[i + |Marker|..i + |Marker| + |id|] &&
    (i + |Marker| + |id| == |url| || url[i + |Marker| + |id|] == '?')
  }

  /** The group captured at a qualifying position. */
  lemma CaptureAt(url: string, i: nat)
    requires Qualifies(url, i)
    ensures var b := i + |Marker|; var id := url[b..RunEnd(url, b)];
      |id| > 0 && '?' !in id && b + |id| == RunEnd(url, b)
  {
    var b := i + |Marker|;
    var e := RunEnd(url, b);
    var id := url[b..e];
    assert url[b] != '?';
    assert '?' !in id by {
      forall j | 0 <= j < |id| ensures id[j] != '?' {
        assert id[j] == url[b + j];
      }
    }
  }

  /** The capture may contain '/': only '?' ends it. */
  lemma CaptureKeepsSlashes()
    ensures MatchPlaylistId("/playlist/a/b?si") == Some("a/b")
  {
    var url := "/playlist/a/b?si";
    assert url[0..9][0] == '/';
    assert !Qualifies(url, 0);
    assert url[1..10] == Marker;
    assert Qualifies(url, 1);
    assert RunEnd(url, 10) == 13;
    assert url[10..13] == "a/b";
  }

  /** The state of the form: the input, the error line, and the route the
      page navigated to (None while it stays on the home page). */
  datatype FormState = FormState(url: string, error: string, navigatedTo: Option<string>)

  /** What `handleSubmit` does to the form. */
  function Submit(s: FormState): (r: FormState)
    ensures MatchPlaylistId(s.url).Some? ==>
      r == FormState(s.url, "", Some(AnalysisPrefix + MatchPlaylistId(s.url).value))
    ensures MatchPlaylistId(s.url).None? ==>
      r == FormState("", InvalidUrlMessage, s.navigatedTo)
  {
    match MatchPlaylistId(s.url)
    case Some(id) => s.(error := "", navigatedTo := Some(AnalysisPrefix + id))
    case None => s.(error := InvalidUrlMessage, url := "")
  }

  /** A submit navigates exactly when the link qualifies, to a route that
      ends in a non-empty id without '?'; otherwise it leaves an error and an
      empty input, and a second submit repeats the same error. */
  lemma SubmitOutcome(s: FormState)
    ensures Submit(s).navigatedTo != s.navigatedTo || Submit(s).error == "" ==>
      exists i: nat :: Qualifies(s.url, i)
    ensures (exists i: nat :: Qualifies(s.url, i)) ==>
      Submit(s).error == "" && Submit(s).navigatedTo.Some? &&
      |Submit(s).navigatedTo.value| > |AnalysisPrefix| &&
      Submit(s).navigatedTo.value[..|AnalysisPrefix|] == AnalysisPrefix &&
      '?' !in Submit(s).navigatedTo.value[|AnalysisPrefix|..]
    ensures (forall i: nat :: !Qualifies(s.url, i)) ==>
      Submit(s).error == InvalidUrlMessage && Submit(s).url == "" && Submit(Submit(s)) == Submit(s)
  {
    MatchExistsIff(s.url);
    MatchExistsIff("");
    if MatchPlaylistId(s.url).Some? {
      MatchCapture(s.url);
      var route := Submit(s).navigatedTo.value;
      assert route[|AnalysisPrefix|..] == MatchPlaylistId(s.url).value;
    }
  }

  /** The home component's state. */
  class HomeForm {
    var url: string
    var error: string
    var navigatedTo: Option<string>

    constructor ()
      ensures url == "" && error == "" && navigatedTo == None
    {
      url, error, navigatedTo := "", "", None;
    }

    function State(): FormState
      reads this
    {
      FormState(url, error, navigatedTo)
    }

    /** `handleSubmit`: set the error and the input, or navigate. */
    method HandleSubmit()
      modifies this
      ensures State() == Submit(old(State()))
    {
      var m := MatchPlaylistId(url);
      if m.Some? {
        error := "";
        navigatedTo := Some(AnalysisPrefix + m.value);
      } else {
        error := InvalidUrlMessage;
        url := "";
      }
    }
  }
}
