/**
 * The recording worker (`WorkerGrabacion`): the countdown it reports while
 * the microphone records, and the cleaning of the transcript it hands back.
 * The microphone, the audio post-processing and the speech-to-text engine
 * are outside the model: one `Capture` value says what they produced.
 */
module Transcript {
  import opened Wrappers
  import opened PyStr

  /**
   * Tokens the speech-to-text engine is known to produce from silence or
   * noise, in the order the cleaner deletes them.
   */
  const JunkTokens: seq<String> := ["喝水", "thereel", "谢谢", "gracias", "thank you"]

  lemma {:induction false} JunkTokensNonEmpty()
    ensures forall k :: 0 <= k < |JunkTokens| ==> |JunkTokens[k]| > 0 && !IsSpace(JunkTokens[k][0])
  {
  }

  /** Deletes each token in turn, each by one `replace(token, "")` pass. */
  function RemoveTokens(s: String, tokens: seq<String>): String
    requires forall k :: 0 <= k < |tokens| ==> |tokens[k]| > 0
    decreases |tokens|
  {
    if tokens == [] then s else RemoveTokens(Remove(s, tokens[0]), tokens[1..])
  }

  /** What `limpiar_texto_transcrito` returns for `s`. */
  function Cleaned(s: String): String {
    Capitalize(Collapse(RemoveTokens(s, JunkTokens)))
  }

  /**
   * `limpiar_texto_transcrito`: delete the junk tokens one after the other,
   * collapse the whitespace, capitalize. The result is single-spaced and
   * capitalized, equals the collapsed text up to case, and is empty for a
   * text of whitespace only.
   */
  method CleanTranscript(texto: String) returns (r: String)
    ensures r == Cleaned(texto)
    ensures SingleSpaced(r) && Capitalized(r)
    ensures Lower(r) == Lower(Collapse(RemoveTokens(texto, JunkTokens)))
    ensures AllSpace(texto) ==> r == []
  {
    JunkTokensNonEmpty();
    var t := texto;
    for i := 0 to |JunkTokens|
      invariant RemoveTokens(t, JunkTokens[i..]) == RemoveTokens(texto, JunkTokens)
    {
      assert JunkTokens[i..][1..] == JunkTokens[i + 1..];
      t := Remove(t, JunkTokens[i]);
    }
    assert JunkTokens[|JunkTokens|..] == [];
    var c := Collapse(t);
    r := Capitalize(c);
    CapitalizeSingleSpaced(c);
    if AllSpace(texto) {
      RemoveTokensOfSpace(texto, JunkTokens);
      StripEmpty(texto);
    }
  }

  /** No token that starts with a non-space character occurs in whitespace. */
  lemma {:induction false} RemoveTokensOfSpace(s: String, tokens: seq<String>)
    requires AllSpace(s)
    requires forall k :: 0 <= k < |tokens| ==> |tokens[k]| > 0 && !IsSpace(tokens[k][0])
    ensures RemoveTokens(s, tokens) == s
  {
    if tokens != [] {
      RemoveEffect(s, tokens[0]);
      RemoveTokensOfSpace(s, tokens[1..]);
    }
  }

  /**
   * Deleting a token can splice a new occurrence of it together, so the
   * cleaner does not promise a text free of junk tokens.
   */
  lemma {:induction false} SpliceKeepsToken()
    ensures Remove("gracgraciasias", "gracias") == "gracias"
    ensures Contains(Remove("gracgraciasias", "gracias"), "gracias")
  {
    var s, p := "gracgraciasias", "gracias";
    assert s[0..7][4] != p[4];
    assert s[1..8][0] != p[0];
    assert s[2..9][0] != p[0];
    assert s[3..10][0] != p[0];
    RemoveSkips(s, p, 4);
    RemoveAtStart("graciasias", p);
    assert "gracgraciasias"[..4] == "grac" && "gracgraciasias"[4..] == "graciasias";
    assert "graciasias"[7..] == "ias";
    assert Remove("ias", p) == "ias";
    assert "grac" + "ias" == p;
    assert OccursAt(p, p, 0);
  }

  /** Where the token does not start at any of the first `n` positions, `replace` keeps them. */
  lemma {:induction false} RemoveSkips(s: String, p: String, n: nat)
    requires |p| > 0 && n <= |s|
    requires forall j :: 0 <= j < n ==> !OccursAt(s, p, j)
    ensures Remove(s, p) == s[..n] + Remove(s[n..], p)
  {
    if n > 0 {
      assert !OccursAt(s, p, 0);
      forall j | 0 <= j < n - 1 ensures !OccursAt(s[1..], p, j) {
        OccursInSuffix(s, p, 1, j);
      }
      RemoveSkips(s[1..], p, n - 1);
      assert s[1..][n - 1..] == s[n..];
      assert s[..n] == [s[0]] + s[1..][..n - 1];
    }
  }

  /** A token at the start of the text is deleted. */
  lemma {:induction false} RemoveAtStart(s: String, p: String)
    requires |p| > 0 && OccursAt(s, p, 0)
    ensures Remove(s, p) == Remove(s[|p|..], p)
  {
  }

  // ---------------------------------------------------------------------------
  // the countdown

  /** The length of a recording, in seconds. */
  const RecordSeconds: nat := 15

  /** The status line the worker emits: `f"Grabando... {i}s"`. */
  function Status(i: nat): String {
    "Grabando... " + DecimalString(i) + "s"
  }

  /** The seconds count can be read back from a status line. */
  lemma StatusReadBack(i: nat)
    ensures var t := Status(i);
      StartsWith(t, "Grabando... ") && t[|t| - 1] == 's' && ParseDecimal(t[12..|t| - 1]) == i
  {
    var t := Status(i);
    assert t[12..|t| - 1] == DecimalString(i);
    DecimalRoundTrip(i);
  }

  /**
   * The status lines of a countdown whose stop flag is seen clear
   * `liveChecks` times: the initial line, then one line per second from
   * 15 down, as long as the flag stays clear.
   */
  function CountdownStatuses(liveChecks: nat): (r: seq<String>)
    ensures |r| == 1 + (if liveChecks < RecordSeconds then liveChecks else RecordSeconds)
    ensures r[0] == Status(RecordSeconds)
    ensures forall k :: 1 <= k < |r| ==> r[k] == Status(RecordSeconds + 1 - k)
  {
    [Status(RecordSeconds)] + Ticks(RecordSeconds, if liveChecks < RecordSeconds then liveChecks else RecordSeconds)
  }

  /** The `n` status lines of the seconds counted down from `from`. */
  function Ticks(from: nat, n: nat): (r: seq<String>)
    requires n <= from
    ensures |r| == n && forall k :: 0 <= k < n ==> r[k] == Status(from - k)
    decreases n
  {
    if n == 0 then [] else [Status(from)] + Ticks(from - 1, n - 1)
  }

  /**
   * The countdown loop of `WorkerGrabacion.run`. `liveChecks` is how many of
   * the loop's checks of the stop flag find it clear; `completed` is false
   * when the loop returned early.
   */
  method RunCountdown(liveChecks: nat) returns (statuses: seq<String>, completed: bool)
    ensures completed <==> liveChecks >= RecordSeconds
    ensures statuses == CountdownStatuses(liveChecks)
  {
    statuses := [Status(RecordSeconds)];
    var i := RecordSeconds;
    while i > 0
      invariant 0 <= i <= RecordSeconds
      invariant RecordSeconds - i <= liveChecks
      invariant |statuses| == 1 + (RecordSeconds - i)
      invariant statuses[0] == Status(RecordSeconds)
      invariant forall k :: 1 <= k < |statuses| ==> statuses[k] == Status(RecordSeconds + 1 - k)
    {
      if RecordSeconds - i == liveChecks {
        return statuses, false;
      }
      statuses := statuses + [Status(i)];
      i := i - 1;
    }
    completed := true;
  }

  /** What the microphone and the speech-to-text engine produced. */
  datatype Capture =
    | RecordFailed                            // starting the recording raised
    | Recorded(transcript: Option<String>)    // the raw transcript, or None where saving or transcribing failed

  /** The text a finished recording delivers: the cleaned transcript, or the empty text after any failure. */
  function Delivered(capture: Capture): (t: String)
    ensures SingleSpaced(t) && Capitalized(t)
  {
    match capture
    case Recorded(Some(raw)) =>
      CapitalizeSingleSpaced(Collapse(RemoveTokens(Strip(raw), JunkTokens)));
      Cleaned(Strip(raw))
    case _ => []
  }

  /**
   * `WorkerGrabacion.run`: the status lines it emits and the text it
   * finishes with (`None` when the stop flag cut the countdown short and
   * `finished` is never emitted). Any failure finishes with the empty
   * text; a transcript is stripped and cleaned.
   */
  method RunRecording(liveChecks: nat, capture: Capture) returns (statuses: seq<String>, finished: Option<String>)
    ensures capture.RecordFailed? ==> statuses == [Status(RecordSeconds)] && finished == Some([])
    ensures capture.Recorded? ==> statuses == CountdownStatuses(liveChecks)
    ensures capture.Recorded? ==> (finished.Some? <==> liveChecks >= RecordSeconds)
    ensures finished.Some? ==> finished.value == Delivered(capture)
  {
    if capture.RecordFailed? {
      return [Status(RecordSeconds)], Some([]);
    }
    var completed;
    statuses, completed := RunCountdown(liveChecks);
    if !completed {
      return statuses, None;
    }
    match capture.transcript
    case None =>
      finished := Some([]);
    case Some(raw) =>
      var texto := CleanTranscript(Strip(raw));
      finished := Some(texto);
  }
}
