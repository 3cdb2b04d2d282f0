/**
 * The dialogue policy of `generar_respuesta`: capturing the user's name from
 * a trigger phrase, the canned greeting that replaces the language model on
 * the turn that captures a name, the prompt sent to the language model and
 * the apology returned when the model fails. The language model itself is an
 * oracle: a function from the prompt to a result.
 */
module Dialogue {
  import opened Wrappers
  import opened PyStr

  const AssistantName: String := "ELISA"

  /** The phrases that introduce a name, in the order they are tried. */
  const Triggers: seq<String> := ["me llamo", "mi nombre es", "soy"]

  const Apology: String := "Lo siento, no pude procesar tu solicitud."

  function Greeting(name: String): String {
    "¡Mucho gusto, " + name + "! ¿En qué puedo ayudarte hoy?"
  }

  /** The answer of the language-model service: the `response` text, or an exception. */
  datatype LlmResult = Generated(response: String) | GenerationFailed

  /** The reply taken from the language model's answer. */
  function ReplyText(res: LlmResult): String {
    match res
    case Generated(t) => t
    case GenerationFailed => Apology
  }

  /** The name a trigger introduces: the text after its last occurrence, stripped and title-cased. */
  function NameAfter(lower: String, trigger: String): String
    requires |trigger| > 0
  {
    Title(Strip(SplitLast(lower, trigger)))
  }

  /** The first trigger, in priority order, that the lower-cased text contains. */
  function FirstTrigger(lower: String): (k: Option<nat>)
    ensures k.Some? ==> k.value < |Triggers| && Contains(lower, Triggers[k.value])
    ensures forall j :: 0 <= j < |Triggers| && (k.None? || j < k.value) ==> !Contains(lower, Triggers[j])
  {
    if Contains(lower, Triggers[0]) then Some(0)
    else if Contains(lower, Triggers[1]) then Some(1)
    else if Contains(lower, Triggers[2]) then Some(2)
    else None
  }

  /** The user's name after name detection has looked at `texto`. */
  function CapturedName(before: Option<String>, texto: String): Option<String> {
    if before.Some? then before
    else
      var lower := Lower(texto);
      match FirstTrigger(lower)
      case None => None
      case Some(k) => Some(NameAfter(lower, Triggers[k]))
  }

  /** The turn captures a name longer than one character, so the greeting replaces the model. */
  predicate GreetingTurn(before: Option<String>, texto: String) {
    var name := CapturedName(before, texto);
    before.None? && name.Some? && |name.value| > 1
  }

  const Persona: String := "Eres ELISA, un asistente virtual en español. "
  const Instruction: String := "Responde de manera clara y concisa en español (máximo 50 palabras):"

  /** Who is speaking, as the prompt puts it. */
  function Addressee(name: Option<String>): String {
    if name.Some? && name.value != [] then "El usuario " + name.value + " te dice:" else "Usuario:"
  }

  /** The prompt sent to the language model. */
  function Prompt(name: Option<String>, texto: String): String {
    Persona + Addressee(name) + " " + texto + "\n" + Instruction
  }

  /** A reply, and the prompt sent to the language model for it (`None` when it was not consulted). */
  datatype Answer = Answer(reply: String, prompt: Option<String>)

  /** What `generar_respuesta(texto)` replies when the user's name was `before`. */
  function Respond(before: Option<String>, texto: String, llm: String -> LlmResult): Answer {
    var name := CapturedName(before, texto);
    if GreetingTurn(before, texto) then Answer(Greeting(name.value), None)
    else
      var p := Prompt(name, texto);
      Answer(ReplyText(llm(p)), Some(p))
  }

  // ---------------------------------------------------------------------------
  // properties of one turn

  /**
   * Every trigger is a non-empty phrase. Detection sets a name exactly when
   * one of the triggers occurs in the lower-cased text; the name then comes
   * from the first trigger in priority order that occurs, and the triggers
   * before it do not occur.
   */
  lemma NameDetection(texto: String)
    ensures forall k :: 0 <= k < |Triggers| ==> |Triggers[k]| > 0
    ensures CapturedName(None, texto).None? <==>
      forall j :: 0 <= j < |Triggers| ==> !Contains(Lower(texto), Triggers[j])
    ensures CapturedName(None, texto).Some? ==>
      exists k :: 0 <= k < |Triggers| && Contains(Lower(texto), Triggers[k]) &&
        (forall j :: 0 <= j < k ==> !Contains(Lower(texto), Triggers[j])) &&
        CapturedName(None, texto).value == NameAfter(Lower(texto), Triggers[k])
  {
  }

  /**
   * A captured name is title-cased, has no whitespace at its ends, and, up to
   * case, is a piece of the input that no longer holds the trigger phrase
   * that introduced it.
   */
  lemma {:induction false} NameShape(texto: String, k: nat)
    requires k < |Triggers|
    ensures var n := NameAfter(Lower(texto), Triggers[k]);
      TitleCased(n) && Trimmed(n) && !Contains(Lower(n), Triggers[k])
  {
    NameAfterShape(texto, Triggers[k]);
  }

  lemma {:induction false} NameAfterShape(texto: String, t: String)
    requires |t| > 0
    ensures var n := NameAfter(Lower(texto), t);
      TitleCased(n) && Trimmed(n) && !Contains(Lower(n), t)
  {
    SplitLastLowercase(Lower(texto), t);
    SplitLastNoSep(Lower(texto), t);
    NameOfPiece(SplitLast(Lower(texto), t), t);
  }

  /** None of the trigger phrases can overlap itself. */
  lemma {:induction false} TriggersSelfOverlapFree()
    ensures forall k :: 0 <= k < |Triggers| ==> SelfOverlapFree(Triggers[k])
  {
    var p0, p1, p2 := Triggers[0], Triggers[1], Triggers[2];
    forall d | 0 < d < |p0| ensures p0[d..] != p0[..|p0| - d] {
      if d == 6 {
        assert p0[d..][1] != p0[..|p0| - d][1];
      } else {
        assert p0[d..][0] != p0[..|p0| - d][0];
      }
    }
    forall d | 0 < d < |p1| ensures p1[d..] != p1[..|p1| - d] {
      if d == 5 {
        assert p1[d..][1] != p1[..|p1| - d][1];
      } else {
        assert p1[d..][0] != p1[..|p1| - d][0];
      }
    }
    forall d | 0 < d < |p2| ensures p2[d..] != p2[..|p2| - d] {
      assert p2[d..][0] != p2[..|p2| - d][0];
    }
  }

  lemma {:induction false} TriggerSelfOverlapFree(k: nat)
    requires k < |Triggers|
    ensures SelfOverlapFree(Triggers[k])
  {
    TriggersSelfOverlapFree();
  }

  /**
   * The name a trigger introduces (`NameAfter`, the stripped and title-cased
   * last piece) is read from the text after the trigger's last occurrence: no
   * occurrence of the trigger starts after the one the piece follows.
   */
  lemma {:induction false} NameAfterLastOccurrence(lower: String, k: nat)
    requires k < |Triggers| && Contains(lower, Triggers[k])
    ensures var t := Triggers[k];
      var i := |lower| - |SplitLast(lower, t)| - |t|;
      OccursAt(lower, t, i) && (forall j :: i < j ==> !OccursAt(lower, t, j)) &&
      SplitLast(lower, t) == lower[i + |t|..]
  {
    TriggerSelfOverlapFree(k);
    SplitLastAfterLast(lower, Triggers[k]);
  }

  /**
   * Stripping and title-casing a lower-case text free of `t` gives a trimmed
   * title-cased text that is still free of `t` up to case.
   */
  lemma {:induction false} NameOfPiece(x: String, t: String)
    requires Lowercase(x) && !Contains(x, t)
    ensures var n := Title(Strip(x));
      TitleCased(n) && Trimmed(n) && !Contains(Lower(n), t)
  {
    var y := Strip(x);
    StripAbsent(x, t);
    StripLowercase(x);
    LowerOfLowercase(y);
    TitleTrimmed(y);
  }

  /**
   * The prompt carries the persona, then addresses the user by name when a
   * non-empty name is known ("El usuario <name> te dice: ") and as "Usuario: "
   * otherwise, and ends with the input and the length instruction.
   */
  lemma {:induction false} PromptShape(name: Option<String>, texto: String)
    ensures var p := Prompt(name, texto);
      StartsWith(p, Persona) &&
      p[|p| - |texto| - |Instruction| - 1..] == texto + "\n" + Instruction &&
      (StartsWith(p[|Persona|..], "El usuario ") <==> name.Some? && name.value != []) &&
      (name.Some? && name.value != [] ==> StartsWith(p[|Persona|..], "El usuario " + name.value + " te dice: ")) &&
      (!(name.Some? && name.value != []) ==> StartsWith(p[|Persona|..], "Usuario: "))
  {
    var p := Prompt(name, texto);
    var a := Addressee(name);
    PromptParts(Persona, a, texto, Instruction);
    var rest := p[|Persona|..];
    if name.Some? && name.value != [] {
      var n := name.value;
      assert a + " " == "El usuario " + n + " te dice: ";
      PrefixOfPrefix(rest, "El usuario ", n + " te dice: ");
    } else {
      assert a + " " == "Usuario: ";
      assert rest[0] == 'U';
    }
  }

  /** Where the parts of a prompt sit in it. */
  lemma {:induction false} PromptParts(persona: String, a: String, texto: String, instruction: String)
    ensures var p := persona + a + " " + texto + "\n" + instruction;
      StartsWith(p, persona) &&
      StartsWith(p[|persona|..], a + " ") &&
      p[|p| - |texto| - |instruction| - 1..] == texto + "\n" + instruction
  {
    var p := persona + a + " " + texto + "\n" + instruction;
    assert p == persona + ((a + " ") + (texto + "\n" + instruction));
    assert p[..|persona|] == persona;
    assert p[|persona|..] == (a + " ") + (texto + "\n" + instruction);
    assert p[|persona|..][..|a| + 1] == a + " ";
    assert p == (persona + a + " ") + (texto + "\n" + instruction);
  }

  /**
   * The language model is consulted, once and with the prompt, on every turn
   * but the greeting turn; its response is the reply, and a failure gives
   * exactly the apology.
   */
  lemma RespondSpec(before: Option<String>, texto: String, llm: String -> LlmResult)
    ensures var a := Respond(before, texto, llm);
      (a.prompt.None? <==> GreetingTurn(before, texto)) &&
      (a.prompt.None? ==> a.reply == Greeting(CapturedName(before, texto).value)) &&
      (a.prompt.Some? ==> a.prompt.value == Prompt(CapturedName(before, texto), texto)) &&
      (a.prompt.Some? && llm(a.prompt.value).GenerationFailed? ==> a.reply == Apology) &&
      (a.prompt.Some? && llm(a.prompt.value).Generated? ==> a.reply == llm(a.prompt.value).response)
  {
  }

  // ---------------------------------------------------------------------------
  // properties of a session: a sequence of turns

  /** The user's name after the turns `texts`, starting from `name`. */
  function NameAfterTurns(name: Option<String>, texts: seq<String>): Option<String>
    decreases |texts|
  {
    if |texts| == 0 then name else NameAfterTurns(CapturedName(name, texts[0]), texts[1..])
  }

  /** Once a name is known, whatever it is (even empty), no later turn changes it. */
  lemma {:induction false} NameWriteOnce(name: Option<String>, texts: seq<String>)
    requires name.Some?
    ensures NameAfterTurns(name, texts) == name
  {
    if texts != [] {
      NameWriteOnce(name, texts[1..]);
    }
  }

  /** Starting with no name, a session in which no turn holds a trigger leaves the name unset. */
  lemma {:induction false} NoCaptureNoName(texts: seq<String>)
    requires forall i :: 0 <= i < |texts| ==> CapturedName(None, texts[i]).None?
    ensures NameAfterTurns(None, texts).None?
    decreases |texts|
  {
    if |texts| > 0 {
      assert CapturedName(None, texts[0]).None?;
      forall i | 0 <= i < |texts[1..]| ensures CapturedName(None, texts[1..][i]).None? {
        assert texts[1..][i] == texts[i + 1];
      }
      NoCaptureNoName(texts[1..]);
    }
  }

  /**
   * Starting with no name, the session's name is the one captured by the
   * first turn in which a trigger occurs.
   */
  lemma {:induction false} FirstCaptureWins(texts: seq<String>, i: nat)
    requires i < |texts| && CapturedName(None, texts[i]).Some?
    requires forall j :: 0 <= j < i ==> CapturedName(None, texts[j]).None?
    ensures NameAfterTurns(None, texts) == CapturedName(None, texts[i])
    decreases i
  {
    if i == 0 {
      NameWriteOnce(CapturedName(None, texts[0]), texts[1..]);
    } else {
      assert CapturedName(None, texts[0]).None?;
      assert texts[1..][i - 1] == texts[i];
      forall j | 0 <= j < i - 1 ensures CapturedName(None, texts[1..][j]).None? {
        assert texts[1..][j] == texts[j + 1];
      }
      FirstCaptureWins(texts[1..], i - 1);
    }
  }

  /** How many of the turns `texts` are greeting turns, starting from `name`. */
  function GreetingCount(name: Option<String>, texts: seq<String>): nat
    decreases |texts|
  {
    if |texts| == 0 then 0
    else (if GreetingTurn(name, texts[0]) then 1 else 0) + GreetingCount(CapturedName(name, texts[0]), texts[1..])
  }

  /**
   * The greeting (and with it the skipped language-model call) happens at
   * most once in a session, and never once a name is known.
   */
  lemma {:induction false} GreetingAtMostOnce(name: Option<String>, texts: seq<String>)
    decreases |texts|
    ensures GreetingCount(name, texts) <= 1
    ensures name.Some? ==> GreetingCount(name, texts) == 0
  {
    if texts != [] {
      var next := CapturedName(name, texts[0]);
      GreetingAtMostOnce(next, texts[1..]);
    }
  }
}
