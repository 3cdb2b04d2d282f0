/**
 * The main window `AsistenteVirtualGUI`: the conversation log and its
 * display, the record button, the avatar, and the handlers that run a turn
 * of the conversation (typed or spoken). The widgets are reduced to the
 * state they show; the speech, language and command engines are oracles.
 */
module Controller {
  import opened Wrappers
  import opened PyStr
  import opened Transcript
  import opened Dialogue
  import opened Commands

  datatype Speaker = AssistantSpeaker | UserSpeaker

  /** A message as the conversation pane shows it: who said it, and the text after the tag. */
  datatype Entry = Entry(speaker: Speaker, text: String)

  /** The two animations of the avatar: recording and speaking both show the talking one. */
  datatype Avatar = Still | Talking

  const AssistantTag: String := AssistantName + ":"
  const UserTag: String := "Tú:"
  const RecordLabel: String := "Grabar Audio"
  const RecordingLabel: String := "Grabando..."
  const Welcome: String := "¡Hola! Soy " + AssistantName + ", tu asistente virtual. ¿Cómo te llamas?"

  /** A line of the user: `f"Tú: {texto}"`. */
  function UserLine(t: String): String {
    "Tú: " + t
  }

  /** A line of the assistant: `f"{nombre_asistente}: {t}"`. */
  function AssistantLine(t: String): String {
    AssistantName + ": " + t
  }

  /** How the pane shows a message: assistant lines by their tag, everything else as the user's. */
  function Classify(m: String): Entry {
    if StartsWith(m, AssistantTag) then Entry(AssistantSpeaker, Strip(m[|AssistantTag|..]))
    else Entry(UserSpeaker, if StartsWith(m, UserTag) then Strip(m[|UserTag|..]) else m)
  }

  /** A user line built from a stripped text is shown as the user's, with exactly that text. */
  lemma {:induction false} ClassifyUserLine(t: String)
    requires Trimmed(t)
    ensures Classify(UserLine(t)) == Entry(UserSpeaker, t)
  {
    var m := UserLine(t);
    assert m[0] != AssistantTag[0];
    assert m[..|UserTag|] == UserTag;
    assert m[|UserTag|..] == " " + t;
    StripAfterSpace(t);
  }

  /** An assistant line is shown as the assistant's, with its text stripped. */
  lemma {:induction false} ClassifyAssistantLine(t: String)
    ensures Classify(AssistantLine(t)) == Entry(AssistantSpeaker, Strip(t))
  {
    var m := AssistantLine(t);
    assert m[..|AssistantTag|] == AssistantTag;
    var rest := m[|AssistantTag|..];
    assert rest == " " + t && rest[1..] == t;
    StripSpacePrefix(rest);
  }

  /** A countdown status line is shown as the assistant's, unchanged. */
  lemma {:induction false} StatusShown(i: nat)
    ensures Classify(AssistantLine(Status(i))) == Entry(AssistantSpeaker, Status(i))
  {
    var t := Status(i);
    assert t[0] == 'G' && t[|t| - 1] == 's';
    StripTrimmed(t);
    ClassifyAssistantLine(t);
  }

  /** The welcome line's only `": "` follows the tag, so `split(": ")[1]` is exactly the welcome text. */
  lemma {:induction false} WelcomeSpoken()
    ensures Find(AssistantLine(Welcome), ": ") == Some(|AssistantTag| - 1)
    ensures AssistantLine(Welcome)[|AssistantTag| + 1..] == Welcome
    ensures !Contains(Welcome, ": ")
  {
    var m := AssistantLine(Welcome);
    assert OccursAt(m, ": ", 5);
    forall j | 0 <= j < 5 ensures !OccursAt(m, ": ", j) {
      assert m[j] != ':';
    }
    assert m[7..] == Welcome;
    WelcomeNoSeparator();
  }

  /** The welcome text holds no colon, so no `": "`. */
  lemma {:induction false} WelcomeNoSeparator()
    ensures !Contains(Welcome, ": ")
  {
    forall j | 0 <= j < |Welcome| ensures Welcome[j] != ':' {
    }
    forall j | 0 <= j ensures !OccursAt(Welcome, ": ", j) {
      if j + 2 <= |Welcome| {
        assert Welcome[j..j + 2][0] == Welcome[j];
      }
    }
  }

  /** The welcome line is shown as the assistant's, with the welcome text. */
  lemma {:induction false} WelcomeShown()
    ensures Classify(AssistantLine(Welcome)) == Entry(AssistantSpeaker, Welcome)
  {
    assert Welcome[0] == '¡' && Welcome[|Welcome| - 1] == '?';
    StripTrimmed(Welcome);
    ClassifyAssistantLine(Welcome);
  }

  /** Each text as an assistant line. */
  function AssistantLines(ts: seq<String>): (ls: seq<String>)
    ensures |ls| == |ts| && forall k :: 0 <= k < |ts| ==> ls[k] == AssistantLine(ts[k])
  {
    seq(|ts|, k requires 0 <= k < |ts| => AssistantLine(ts[k]))
  }

  /** One more text gives one more assistant line, at the end. */
  lemma {:induction false} AssistantLinesStep(ts: seq<String>, i: nat)
    requires i < |ts|
    ensures AssistantLines(ts[..i + 1]) == AssistantLines(ts[..i]) + [AssistantLine(ts[i])]
  {
    assert forall k :: 0 <= k <= i ==> AssistantLines(ts[..i + 1])[k] == (AssistantLines(ts[..i]) + [AssistantLine(ts[i])])[k];
  }

  /** Each message as the pane shows it. */
  function Shown(ms: seq<String>): (es: seq<Entry>)
    ensures |es| == |ms| && forall k :: 0 <= k < |ms| ==> es[k] == Classify(ms[k])
  {
    seq(|ms|, k requires 0 <= k < |ms| => Classify(ms[k]))
  }

  /** A turn appended to the log shows the user's stripped text and the assistant's reply, stripped. */
  lemma {:induction false} TurnShown(c0: seq<String>, t: String, r: String)
    requires Trimmed(t)
    ensures Shown(c0 + [UserLine(t), AssistantLine(r)]) ==
      Shown(c0) + [Entry(UserSpeaker, t), Entry(AssistantSpeaker, Strip(r))]
  {
    ShownPair(c0, UserLine(t), AssistantLine(r));
    ClassifyUserLine(t);
    ClassifyAssistantLine(r);
  }

  lemma {:induction false} ShownPair(c0: seq<String>, a: String, b: String)
    ensures Shown(c0 + [a, b]) == Shown(c0) + [Classify(a), Classify(b)]
  {
    assert forall k :: 0 <= k < |c0| + 2 ==> Shown(c0 + [a, b])[k] == (Shown(c0) + [Classify(a), Classify(b)])[k];
  }

  /** The effect as a list of at most one. */
  function EffectList(e: Option<Effect>): seq<Effect> {
    if e.Some? then [e.value] else []
  }

  class AssistantWindow {
    /** `nombre_usuario`: set once, by the first turn that names the user. */
    var userName: Option<String>
    /** `conversacion`: the messages since the last clear. */
    var conversation: seq<String>
    /** The lines appended to the conversation file, across sessions (timestamps left out). */
    var savedLines: seq<String>
    /** The text of the input line. */
    var inputLine: String
    var recordEnabled: bool
    var recordLabel: String
    var avatar: Avatar
    /** A recording worker has started and has not delivered its text. */
    var recording: bool
    /** The texts handed to the speech worker, in order. */
    var spoken: seq<String>
    /** The effects of the commands run, in order. */
    var launched: seq<Effect>
    /** The prefixes of the commands logged as failed, in order. */
    var failedCommands: seq<String>

    /**
     * The conversation is the tail of the file, which is only ever appended
     * to; the record button is enabled and labelled according to whether a
     * recording is under way.
     */
    ghost predicate Valid()
      reads this`conversation, this`savedLines, this`recordEnabled, this`recording, this`recordLabel
    {
      |conversation| <= |savedLines| && conversation == savedLines[|savedLines| - |conversation|..] &&
      recordEnabled == !recording &&
      recordLabel == (if recording then RecordingLabel else RecordLabel)
    }

    /** The window opens on the welcome, said aloud, after the lines `previous` already in the file. */
    constructor(previous: seq<String>)
      ensures Valid()
      ensures userName.None? && inputLine == [] && !recording
      ensures conversation == [AssistantLine(Welcome)]
      ensures savedLines == previous + [AssistantLine(Welcome)]
      ensures spoken == [Welcome] && avatar == Talking
      ensures launched == [] && failedCommands == []
    {
      userName := None;
      conversation := [AssistantLine(Welcome)];
      savedLines := previous + [AssistantLine(Welcome)];
      inputLine := [];
      recordEnabled := true;
      recordLabel := RecordLabel;
      avatar := Talking;
      recording := false;
      spoken := [Welcome];
      launched := [];
      failedCommands := [];
    }

    /** `agregar_mensaje`: log the message, save it, show it. */
    method AddMessage(m: String)
      requires Valid()
      modifies this`conversation, this`savedLines
      ensures Valid()
      ensures conversation == old(conversation) + [m]
      ensures savedLines == old(savedLines) + [m]
    {
      conversation := conversation + [m];
      savedLines := savedLines + [m];
    }

    /** `limpiar_conversacion`: empty the log and the pane; the file keeps every line. */
    method ClearConversation()
      requires Valid()
      modifies this`conversation
      ensures Valid()
      ensures conversation == []
    {
      conversation := [];
    }

    /** `hablar`: the avatar talks while the speech worker says `t`. */
    method Speak(t: String)
      modifies this`avatar, this`spoken
      ensures avatar == Talking && spoken == old(spoken) + [t]
    {
      avatar := Talking;
      spoken := spoken + [t];
    }

    /** The speech worker's `finished` signal: the avatar is still again. */
    method SpeechFinished()
      modifies this`avatar
      ensures avatar == Still
    {
      avatar := Still;
    }

    /**
     * `generar_respuesta`: name detection (only while no name is known, the
     * triggers tried in order), then the greeting on the turn that captures
     * a name longer than one character, else the language model's answer to
     * the prompt, or the apology when the model raises.
     */
    method GenerateReply(texto: String, llm: String -> LlmResult) returns (reply: String, prompt: Option<String>)
      modifies this`userName
      ensures userName == CapturedName(old(userName), texto)
      ensures Answer(reply, prompt) == Respond(old(userName), texto, llm)
    {
      var lower := Lower(texto);
      if userName.None? {
        assert Triggers == ["me llamo", "mi nombre es", "soy"];
        if Contains(lower, "me llamo") {
          userName := Some(Title(Strip(SplitLast(lower, "me llamo"))));
        } else if Contains(lower, "mi nombre es") {
          userName := Some(Title(Strip(SplitLast(lower, "mi nombre es"))));
        } else if Contains(lower, "soy") {
          userName := Some(Title(Strip(SplitLast(lower, "soy"))));
        }
        assert userName == CapturedName(None, texto);
        if userName.Some? && |userName.value| > 1 {
          return Greeting(userName.value), None;
        }
      }
      var addressee := if userName.Some? && userName.value != [] then "El usuario " + userName.value + " te dice:" else "Usuario:";
      var p := Persona + addressee + " " + texto + "\n" + Instruction;
      assert p == Prompt(userName, texto);
      prompt := Some(p);
      var res := llm(p);
      match res
      case Generated(t) =>
        reply := t;
      case GenerationFailed =>
        reply := Apology;
    }

    /** Log the assistant's reply and say it. */
    method Say(reply: String)
      requires Valid()
      modifies this`conversation, this`savedLines, this`avatar, this`spoken
      ensures Valid()
      ensures conversation == old(conversation) + [AssistantLine(reply)]
      ensures savedLines == old(savedLines) + [AssistantLine(reply)]
      ensures spoken == old(spoken) + [reply] && avatar == Talking
    {
      AddMessage(AssistantLine(reply));
      Speak(reply);
    }

    /** Log the user's text, reply to it, log the reply and say it. */
    method Reply(texto: String, llm: String -> LlmResult)
      requires Valid()
      modifies this`userName, this`conversation, this`savedLines, this`avatar, this`spoken
      ensures Valid()
      ensures var reply := Respond(old(userName), texto, llm).reply;
        userName == CapturedName(old(userName), texto) &&
        conversation == old(conversation) + [UserLine(texto), AssistantLine(reply)] &&
        savedLines == old(savedLines) + [UserLine(texto), AssistantLine(reply)] &&
        spoken == old(spoken) + [reply] && avatar == Talking
    {
      AddMessage(UserLine(texto));
      var reply, _ := GenerateReply(texto, llm);
      Say(reply);
    }

    /** `ejecutar_comando`, with what it does to the machine and to the log recorded. */
    method RunCommand(texto: String, env: Effect -> bool)
      modifies this`launched, this`failedCommands
      ensures launched == old(launched) + EffectList(Dispatched(Lower(texto), env))
      ensures failedCommands == old(failedCommands) + DispatchFailures(Lower(texto), env)
    {
      var ok, effect, failed := Execute(texto, env);
      launched := launched + EffectList(effect);
      failedCommands := failedCommands + failed;
    }

    /**
     * The common part of both turn handlers: log the user's text, reply,
     * log and say the reply, then run the command the text names.
     */
    method Converse(texto: String, llm: String -> LlmResult, env: Effect -> bool)
      requires Valid()
      modifies this`userName, this`conversation, this`savedLines, this`avatar, this`spoken,
        this`launched, this`failedCommands
      ensures Valid()
      ensures var reply := Respond(old(userName), texto, llm).reply;
        userName == CapturedName(old(userName), texto) &&
        conversation == old(conversation) + [UserLine(texto), AssistantLine(reply)] &&
        savedLines == old(savedLines) + [UserLine(texto), AssistantLine(reply)] &&
        spoken == old(spoken) + [reply] && avatar == Talking
      ensures launched == old(launched) + EffectList(Dispatched(Lower(texto), env))
      ensures failedCommands == old(failedCommands) + DispatchFailures(Lower(texto), env)
    {
      Reply(texto, llm);
      RunCommand(texto, env);
    }

    /**
     * `enviar_mensaje`: a typed turn. An input line of whitespace only changes
     * nothing; otherwise the stripped text is the user's turn and the input
     * line is cleared.
     */
    method SendMessage(llm: String -> LlmResult, env: Effect -> bool)
      requires Valid()
      modifies this`userName, this`conversation, this`savedLines, this`avatar, this`spoken,
        this`launched, this`failedCommands, this`inputLine
      ensures Valid()
      ensures AllSpace(old(inputLine)) ==> unchanged(this)
      ensures !AllSpace(old(inputLine)) ==>
        var texto := Strip(old(inputLine));
        var reply := Respond(old(userName), texto, llm).reply;
        inputLine == [] &&
        userName == CapturedName(old(userName), texto) &&
        conversation == old(conversation) + [UserLine(texto), AssistantLine(reply)] &&
        savedLines == old(savedLines) + [UserLine(texto), AssistantLine(reply)] &&
        Shown(conversation) == Shown(old(conversation)) + [Entry(UserSpeaker, texto), Entry(AssistantSpeaker, Strip(reply))] &&
        spoken == old(spoken) + [reply] && avatar == Talking &&
        launched == old(launched) + EffectList(Dispatched(Lower(texto), env)) &&
        failedCommands == old(failedCommands) + DispatchFailures(Lower(texto), env)
    {
      var texto := Strip(inputLine);
      StripEmpty(inputLine);
      if texto != [] {
        inputLine := [];
        ghost var c0 := conversation;
        Converse(texto, llm, env);
        TurnShown(c0, texto, Respond(old(userName), texto, llm).reply);
      }
    }

    /**
     * `iniciar_grabacion`: while a recording is under way, a click does
     * nothing; otherwise the avatar switches to talking and the button is
     * disabled and relabelled until the recording delivers its text.
     */
    method StartRecording()
      requires Valid()
      modifies this`avatar, this`recordEnabled, this`recordLabel, this`recording
      ensures Valid()
      ensures old(recording) ==> unchanged(this)
      ensures !old(recording) ==> recording && avatar == Talking && !recordEnabled && recordLabel == RecordingLabel
    {
      if recording {
        return;
      }
      avatar := Talking;
      recordEnabled := false;
      recordLabel := RecordingLabel;
      recording := true;
    }

    /** The worker's `update_status` signal: the status becomes an assistant line. */
    method ShowStatus(msg: String)
      requires Valid()
      modifies this`conversation, this`savedLines
      ensures Valid()
      ensures conversation == old(conversation) + [AssistantLine(msg)]
      ensures savedLines == old(savedLines) + [AssistantLine(msg)]
    {
      AddMessage(AssistantLine(msg));
    }

    /** The button is enabled and relabelled again, and the avatar goes still. */
    method EndRecording()
      requires Valid()
      modifies this`recordEnabled, this`recordLabel, this`recording, this`avatar
      ensures Valid()
      ensures !recording && avatar == Still
    {
      recordEnabled := true;
      recordLabel := RecordLabel;
      recording := false;
      avatar := Still;
    }

    /**
     * `finalizar_grabacion`: the button is enabled again and the avatar goes
     * still; a non-empty text is then the user's turn.
     */
    method FinishRecording(texto: String, llm: String -> LlmResult, env: Effect -> bool)
      requires Valid()
      modifies this`userName, this`conversation, this`savedLines, this`avatar, this`spoken,
        this`launched, this`failedCommands, this`recordEnabled, this`recordLabel, this`recording
      ensures Valid()
      ensures !recording && recordEnabled && recordLabel == RecordLabel
      ensures texto == [] ==>
        avatar == Still && userName == old(userName) && conversation == old(conversation) &&
        savedLines == old(savedLines) && spoken == old(spoken) &&
        launched == old(launched) && failedCommands == old(failedCommands)
      ensures texto != [] ==>
        var reply := Respond(old(userName), texto, llm).reply;
        userName == CapturedName(old(userName), texto) &&
        conversation == old(conversation) + [UserLine(texto), AssistantLine(reply)] &&
        savedLines == old(savedLines) + [UserLine(texto), AssistantLine(reply)] &&
        spoken == old(spoken) + [reply] && avatar == Talking &&
        launched == old(launched) + EffectList(Dispatched(Lower(texto), env)) &&
        failedCommands == old(failedCommands) + DispatchFailures(Lower(texto), env)
    {
      EndRecording();
      if texto != [] {
        Converse(texto, llm, env);
      }
    }

    /** The worker's status lines, each shown as it arrives. */
    method ShowStatuses(statuses: seq<String>)
      requires Valid()
      modifies this`conversation, this`savedLines
      ensures Valid()
      ensures conversation == old(conversation) + AssistantLines(statuses)
      ensures savedLines == old(savedLines) + AssistantLines(statuses)
    {
      ghost var lines: seq<String> := [];
      for i := 0 to |statuses|
        invariant Valid()
        invariant lines == AssistantLines(statuses[..i])
        invariant conversation == old(conversation) + lines
        invariant savedLines == old(savedLines) + lines
      {
        AssistantLinesStep(statuses, i);
        ShowStatus(statuses[i]);
        lines := lines + [AssistantLine(statuses[i])];
      }
      assert statuses[..|statuses|] == statuses;
    }

    /**
     * A click of the record button followed by the recording worker's
     * signals: one assistant line per countdown status, then, unless the
     * stop flag cut the countdown short, `finalizar_grabacion` with the
     * delivered text. The worker's stop flag is seen clear `liveChecks`
     * times; `capture` is what the microphone and the speech-to-text engine
     * produced.
     */
    method VoiceTurn(liveChecks: nat, capture: Capture, llm: String -> LlmResult, env: Effect -> bool)
      requires Valid()
      modifies this`userName, this`conversation, this`savedLines, this`avatar, this`spoken,
        this`launched, this`failedCommands, this`recordEnabled, this`recordLabel, this`recording
      ensures Valid()
      ensures old(recording) ==> unchanged(this)
      ensures !old(recording) && capture.Recorded? && liveChecks < RecordSeconds ==>
        var lines := AssistantLines(CountdownStatuses(liveChecks));
        conversation == old(conversation) + lines && savedLines == old(savedLines) + lines &&
        recording && !recordEnabled && recordLabel == RecordingLabel && avatar == Talking &&
        userName == old(userName) && spoken == old(spoken) &&
        launched == old(launched) && failedCommands == old(failedCommands)
      ensures !old(recording) && (capture.RecordFailed? || liveChecks >= RecordSeconds) ==>
        var shown := if capture.RecordFailed? then [Status(RecordSeconds)] else CountdownStatuses(RecordSeconds);
        var lines := AssistantLines(shown);
        var t := Delivered(capture);
        !recording && recordEnabled && recordLabel == RecordLabel &&
        (t == [] ==>
          conversation == old(conversation) + lines && savedLines == old(savedLines) + lines &&
          userName == old(userName) && avatar == Still && spoken == old(spoken) &&
          launched == old(launched) && failedCommands == old(failedCommands)) &&
        (t != [] ==>
          var reply := Respond(old(userName), t, llm).reply;
          conversation == old(conversation) + lines + [UserLine(t), AssistantLine(reply)] &&
          savedLines == old(savedLines) + lines + [UserLine(t), AssistantLine(reply)] &&
          userName == CapturedName(old(userName), t) && avatar == Talking &&
          spoken == old(spoken) + [reply] &&
          launched == old(launched) + EffectList(Dispatched(Lower(t), env)) &&
          failedCommands == old(failedCommands) + DispatchFailures(Lower(t), env))
    {
      if recording {
        return;
      }
      StartRecording();
      var statuses, finished := RunRecording(liveChecks, capture);
      ShowStatuses(statuses);
      if finished.Some? {
        FinishRecording(finished.value, llm, env);
      }
    }
  }
}
