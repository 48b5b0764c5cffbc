/**
 * The prompt composer of baby.py: the phase descriptions, the skin-tone
 * descriptors, the gendered rewrites of the single-image and the all-phases
 * paths, the outer template and the request payload.
 */
module Prompt {
  import opened Wrappers
  import opened PyStr

  /** A concrete gender, as it is once 'Aleatório' has been resolved. */
  datatype Gender = Menino | Menina

  /** The four life phases, keys of AGE_PROMPTS. */
  datatype Phase = Bebe | Crianca | Adolescente | Adulto

  /** The six entries of the skin-tone select box. */
  datatype SkinTone = Automatico | MuitoClaro | Claro | MorenoClaro | MorenoEscuro | Negro

  const NEGATIVE_PROMPT: string :=
    "hands, fingers, deformed hands, mutated hands, arms" + ", blurry, deformed, ugly, disfigured" +
    ", cartoon, anime, 3d render, painting" + ", text, watermark, signature" + ", extra limbs, missing limbs, body"

  /**
   * The outer template, written as the text before its first field, the
   * `{age_desc}` field, ", ", the `{skin_tone}` field and the text after it.
   */
  const BASE_PROMPT_TEMPLATE: string := PROMPT_HEAD + "{" + AGE_FIELD + "}" + ", " + "{" + SKIN_FIELD + "}" + PROMPT_TAIL
  const AGE_FIELD: string := "age_desc"
  const SKIN_FIELD: string := "skin_tone"
  const PROMPT_HEAD: string := "ultra realistic 8k photo, "
  const PROMPT_TAIL: string := ", cinematic lighting" + ", professional photography" + ", sharp focus" + ", incredibly detailed"

  /** The order in which the all-phases path requests its images. */
  const PHASES: seq<Phase> := [Bebe, Crianca, Adolescente, Adulto]

  /** The phases offered by the single-image select box. */
  const SINGLE_PHASES: seq<Phase> := [Bebe, Crianca, Adolescente]

  /**
   * AGE_PROMPTS. Each description is written as its comma-separated phrases,
   * with the word the rewrites look for split off from the words before it.
   */
  function AgePrompt(p: Phase): string
  {
    match p
    case Bebe => "extreme close-up face portrait of a cute" + " " + "newborn baby" + ", 1 month old" + ", sleeping peacefully" + ", perfect smooth skin"
    case Crianca => "cute happy" + " " + "child" + ", 6 years old" + ", smiling" + ", headshot portrait"
    case Adolescente => "portrait of a" + " " + "teenager" + ", 16 years old" + ", natural look" + ", high school photo style"
    case Adulto => "professional headshot portrait of a" + " " + ("young" + " " + "adult") + ", 28 years old" + ", confident expression"
  }

  function SkinToneText(t: SkinTone): string
  {
    match t
    case Automatico => "beautiful diverse heritage"
    case MuitoClaro => "very light, pale caucasian skin"
    case Claro => "light, fair caucasian skin"
    case MorenoClaro => "light brown, mediterranean skin"
    case MorenoEscuro => "dark brown, south asian skin"
    case Negro => "deep dark, african skin"
  }

  /** The resolved gender as the script holds it ('Menino' or 'Menina'). */
  function GenderName(g: Gender): string
  {
    match g
    case Menino => "Menino"
    case Menina => "Menina"
  }

  /** `gender.lower()`. */
  function Lower(g: Gender): string
  {
    match g
    case Menino => "menino"
    case Menina => "menina"
  }

  /** The single-image rewrite chain: 'newborn baby', then 'child', then 'teenager'. */
  function SingleRewrite(s: string, g: Gender): string
  {
    var l := Lower(g);
    Replace(Replace(Replace(s, "newborn baby", "newborn baby " + l), "child", l + " child"), "teenager", l + " teenager")
  }

  /**
   * The all-phases rewrite chain: 'child', 'teenager' and 'adult' by the
   * gender test `gender.lower() == 'menino'`, then 'newborn baby'. The test
   * picks each replacement text; the three calls are the same in both arms.
   */
  function PhaseRewrite(s: string, g: Gender): string
  {
    var boy := Lower(g) == "menino";
    var d := Replace(Replace(Replace(s, "child", if boy then "boy" else "girl"),
                             "teenager", if boy then "male teenager" else "female teenager"),
                     "adult", if boy then "man" else "woman");
    Replace(d, "newborn baby", "newborn baby " + Lower(g))
  }

  /** `age_desc` of the single-image path. */
  function SingleAgeDesc(p: Phase, g: Gender): string
  {
    SingleRewrite(AgePrompt(p), g)
  }

  /** `age_desc` of the all-phases path. */
  function PhaseAgeDesc(p: Phase, g: Gender): string
  {
    PhaseRewrite(AgePrompt(p), g)
  }

  /**
   * `BASE_PROMPT_TEMPLATE.format(age_desc=..., skin_tone=...)`: both values
   * are substituted verbatim into their holes and nothing else changes.
   */
  function ComposePrompt(ageDesc: string, skinTone: string): string
  {
    PROMPT_HEAD + ageDesc + ", " + skinTone + PROMPT_TAIL
  }

  /** The JSON body sent to the model: the prompt and the negative prompt. */
  datatype Payload = Payload(inputs: string, negativePrompt: string)

  function SinglePayload(p: Phase, g: Gender, t: SkinTone): Payload
  {
    Payload(ComposePrompt(SingleAgeDesc(p, g), SkinToneText(t)), NEGATIVE_PROMPT)
  }

  function PhasePayload(p: Phase, g: Gender, t: SkinTone): Payload
  {
    Payload(ComposePrompt(PhaseAgeDesc(p, g), SkinToneText(t)), NEGATIVE_PROMPT)
  }

  // The template's plain text holds no braces, shown piece by piece.

  lemma HeadBraceFree()
    ensures '{' !in PROMPT_HEAD && '}' !in PROMPT_HEAD
  {
  }

  lemma TailBraceFreeFirst()
    ensures '{' !in ", cinematic lighting" && '}' !in ", cinematic lighting"
    ensures '{' !in ", sharp focus" && '}' !in ", sharp focus"
  {
  }

  lemma TailBraceFreeSecond()
    ensures '{' !in ", professional photography" && '}' !in ", professional photography"
  {
  }

  lemma TailBraceFreeThird()
    ensures '{' !in ", incredibly detailed" && '}' !in ", incredibly detailed"
  {
  }

  lemma TemplateTextBraceFree()
    ensures '{' !in PROMPT_HEAD && '}' !in PROMPT_HEAD
    ensures '{' !in PROMPT_TAIL && '}' !in PROMPT_TAIL
  {
    HeadBraceFree();
    TailBraceFreeFirst();
    TailBraceFreeSecond();
    TailBraceFreeThird();
  }

  lemma FieldNames()
    ensures '{' !in AGE_FIELD && '}' !in AGE_FIELD && AGE_FIELD != []
    ensures '{' !in SKIN_FIELD && '}' !in SKIN_FIELD && SKIN_FIELD != []
    ensures AGE_FIELD != SKIN_FIELD
  {
    assert AGE_FIELD[0] != SKIN_FIELD[0];
  }

  /** Formatting the template with both keywords gives the head, the two values and the tail. */
  lemma {:induction false} TemplateFill(a: string, s: string)
    ensures Format(BASE_PROMPT_TEMPLATE, map[AGE_FIELD := a, SKIN_FIELD := s])
            == Some(ComposePrompt(a, s))
  {
    var args := map[AGE_FIELD := a, SKIN_FIELD := s];
    FieldNames();
    TemplateTextBraceFree();
    assert '{' !in ", " && '}' !in ", ";
    FormatTwoFields(PROMPT_HEAD, AGE_FIELD, ", ", SKIN_FIELD, PROMPT_TAIL, args);
  }

  /**
   * The payload of the all-phases path: the template filled with the
   * rewritten phase description and the skin-tone descriptor, verbatim, next
   * to the fixed negative prompt.
   */
  lemma PhasePayloadFills(p: Phase, g: Gender, t: SkinTone)
    ensures Format(BASE_PROMPT_TEMPLATE, map[AGE_FIELD := PhaseAgeDesc(p, g), SKIN_FIELD := SkinToneText(t)])
            == Some(PhasePayload(p, g, t).inputs)
    ensures PhasePayload(p, g, t).negativePrompt == NEGATIVE_PROMPT
  {
    TemplateFill(PhaseAgeDesc(p, g), SkinToneText(t));
  }

  /** The payload of the single-image path, built from the same template. */
  lemma SinglePayloadFills(p: Phase, g: Gender, t: SkinTone)
    ensures Format(BASE_PROMPT_TEMPLATE, map[AGE_FIELD := SingleAgeDesc(p, g), SKIN_FIELD := SkinToneText(t)])
            == Some(SinglePayload(p, g, t).inputs)
    ensures SinglePayload(p, g, t).negativePrompt == NEGATIVE_PROMPT
  {
    TemplateFill(SingleAgeDesc(p, g), SkinToneText(t));
  }
}
