/**
 * The part of Python's `str.format` the correction loop relies on:
 * `template.format(feedback=..., user_input=...)`. The two named fields are
 * replaced, `{{` and `}}` stand for single braces, and any other brace makes
 * the call raise.
 */
module PromptFormat {
  import opened Wrappers

  const FeedbackField := "{feedback}"
  const UserInputField := "{user_input}"

  const CorrectionIntro := "The previous answer had issues: "
  const CorrectionMiddle := "\n\nPlease correct it.\n\nOriginal question:\n"

  /** DEFAULT_CORRECTION_PROMPT of backend/app/graph/agent_graph.py. */
  const DefaultCorrectionPrompt := CorrectionIntro + FeedbackField + CorrectionMiddle + UserInputField

  /** Text with no braces: formatting leaves it as it is. */
  predicate Plain(s: string) {
    forall i :: 0 <= i < |s| ==> s[i] != '{' && s[i] != '}'
  }

  function Prepend(s: string, r: Option<string>): Option<string> {
    match r
    case None => None
    case Some(v) => Some(s + v)
  }

  /** `template.format(feedback=feedback, user_input=userInput)`; None where Python raises. */
  function Format(template: string, feedback: string, userInput: string): (r: Option<string>)
    ensures Plain(template) ==> r == Some(template)
    decreases |template|
  {
    if template == [] then Some([])
    else if template[0] == '{' then
      if FeedbackField <= template then
        Prepend(feedback, Format(template[|FeedbackField|..], feedback, userInput))
      else if UserInputField <= template then
        Prepend(userInput, Format(template[|UserInputField|..], feedback, userInput))
      else if |template| >= 2 && template[1] == '{' then
        Prepend("{", Format(template[2..], feedback, userInput))
      else None
    else if template[0] == '}' then
      if |template| >= 2 && template[1] == '}' then
        Prepend("}", Format(template[2..], feedback, userInput))
      else None
    else
      assert [template[0]] + template[1..] == template;
      Prepend([template[0]], Format(template[1..], feedback, userInput))
  }

  /** Whether formatting succeeds depends on the template only, never on the substituted values. */
  lemma {:induction false} FormatFailsOnTemplateOnly(template: string, f1: string, u1: string, f2: string, u2: string)
    ensures Format(template, f1, u1).Some? <==> Format(template, f2, u2).Some?
    decreases |template|
  {
    if template == [] {
    } else if template[0] == '{' {
      if FeedbackField <= template {
        FormatFailsOnTemplateOnly(template[|FeedbackField|..], f1, u1, f2, u2);
      } else if UserInputField <= template {
        FormatFailsOnTemplateOnly(template[|UserInputField|..], f1, u1, f2, u2);
      } else if |template| >= 2 && template[1] == '{' {
        FormatFailsOnTemplateOnly(template[2..], f1, u1, f2, u2);
      }
    } else if template[0] == '}' {
      if |template| >= 2 && template[1] == '}' {
        FormatFailsOnTemplateOnly(template[2..], f1, u1, f2, u2);
      }
    } else {
      FormatFailsOnTemplateOnly(template[1..], f1, u1, f2, u2);
    }
  }

  /** A character other than a brace is copied through unchanged. */
  lemma FormatPlainChar(ch: char, rest: string, feedback: string, userInput: string)
    requires ch != '{' && ch != '}'
    ensures Format([ch] + rest, feedback, userInput) == Prepend([ch], Format(rest, feedback, userInput))
  {
    var t := [ch] + rest;
    assert t[0] == ch;
    assert t[1..] == rest;
  }

  lemma PrependTwice(s1: string, s2: string, r: Option<string>)
    ensures Prepend(s1, Prepend(s2, r)) == Prepend(s1 + s2, r)
  {
    if r.Some? {
      assert s1 + (s2 + r.value) == (s1 + s2) + r.value;
    }
  }

  /** A brace-free prefix is copied through unchanged. */
  lemma {:induction false} FormatPlainPrefix(a: string, b: string, feedback: string, userInput: string)
    requires Plain(a)
    ensures Format(a + b, feedback, userInput) == Prepend(a, Format(b, feedback, userInput))
    decreases |a|
  {
    if a == [] {
      assert a + b == b;
      var rest := Format(b, feedback, userInput);
      if rest.Some? {
        assert a + rest.value == rest.value;
      }
    } else {
      var head, tail := [a[0]], a[1..];
      assert a + b == [a[0]] + (tail + b);
      assert head + tail == a;
      FormatPlainChar(a[0], tail + b, feedback, userInput);
      FormatPlainPrefix(tail, b, feedback, userInput);
      PrependTwice(head, tail, Format(b, feedback, userInput));
    }
  }

  lemma CorrectionTextIsPlain()
    ensures Plain(CorrectionIntro) && Plain(CorrectionMiddle)
  {
  }

  /** A template that starts with `{feedback}` starts its result with the feedback. */
  lemma FormatFeedbackFirst(rest: string, feedback: string, userInput: string)
    ensures Format(FeedbackField + rest, feedback, userInput) == Prepend(feedback, Format(rest, feedback, userInput))
  {
    var t := FeedbackField + rest;
    assert FeedbackField <= t;
    assert t[|FeedbackField|..] == rest;
  }

  /** The template `{user_input}` alone gives the user input. */
  lemma FormatUserInputOnly(feedback: string, userInput: string)
    ensures Format(UserInputField, feedback, userInput) == Some(userInput)
  {
    assert !(FeedbackField <= UserInputField) by { assert FeedbackField[1] != UserInputField[1]; }
    assert UserInputField[|UserInputField|..] == [];
    assert userInput + [] == userInput;
  }

  /** A template of plain text, `{feedback}`, plain text and `{user_input}` substitutes both fields. */
  lemma FormatFeedbackThenUserInput(intro: string, middle: string, feedback: string, userInput: string)
    requires Plain(intro) && Plain(middle)
    ensures Format(intro + FeedbackField + middle + UserInputField, feedback, userInput)
            == Some(intro + feedback + middle + userInput)
  {
    var tail := middle + UserInputField;
    assert intro + FeedbackField + middle + UserInputField == intro + (FeedbackField + tail);
    FormatPlainPrefix(intro, FeedbackField + tail, feedback, userInput);
    FormatFeedbackFirst(tail, feedback, userInput);
    FormatPlainPrefix(middle, UserInputField, feedback, userInput);
    FormatUserInputOnly(feedback, userInput);
    assert intro + (feedback + (middle + userInput)) == intro + feedback + middle + userInput;
  }

  /**
   * A reference description of the templates `Format` accepts: a sequence of
   * pieces, each a literal character or one of the two fields.
   */
  datatype Piece = Lit(c: char) | FeedbackHole | UserInputHole

  /** How a piece is written in a template: braces are doubled, fields are named. */
  function PieceText(p: Piece): string {
    match p
    case Lit(c) => if c == '{' then "{{" else if c == '}' then "}}" else [c]
    case FeedbackHole => FeedbackField
    case UserInputHole => UserInputField
  }

  /** What a piece stands for once the fields are filled in. */
  function PieceValue(p: Piece, feedback: string, userInput: string): string {
    match p
    case Lit(c) => [c]
    case FeedbackHole => feedback
    case UserInputHole => userInput
  }

  /** The template text of a sequence of pieces. */
  function Print(ps: seq<Piece>): string {
    if ps == [] then [] else PieceText(ps[0]) + Print(ps[1..])
  }

  /** The text a sequence of pieces stands for, fields filled in. */
  function Render(ps: seq<Piece>, feedback: string, userInput: string): string {
    if ps == [] then [] else PieceValue(ps[0], feedback, userInput) + Render(ps[1..], feedback, userInput)
  }

  /** Formatting consumes one written piece and emits its value. */
  lemma FormatPiece(p: Piece, rest: string, feedback: string, userInput: string)
    ensures Format(PieceText(p) + rest, feedback, userInput)
            == Prepend(PieceValue(p, feedback, userInput), Format(rest, feedback, userInput))
  {
    var t := PieceText(p) + rest;
    match p
    case FeedbackHole =>
      FormatFeedbackFirst(rest, feedback, userInput);
    case UserInputHole =>
      assert t[1] == 'u' && FeedbackField[1] == 'f';
      assert UserInputField <= t;
      assert t[|UserInputField|..] == rest;
    case Lit(c) =>
      if c == '{' {
        assert t[0] == '{' && t[1] == '{' && t[2..] == rest;
        assert t[1] != FeedbackField[1] && t[1] != UserInputField[1];
      } else if c == '}' {
        assert t[0] == '}' && t[1] == '}' && t[2..] == rest;
      } else {
        FormatPlainChar(c, rest, feedback, userInput);
      }
  }

  /** Every printed template formats, and to exactly the text its pieces stand for. */
  lemma {:induction false} FormatPrinted(ps: seq<Piece>, feedback: string, userInput: string)
    ensures Format(Print(ps), feedback, userInput) == Some(Render(ps, feedback, userInput))
    decreases |ps|
  {
    if ps != [] {
      FormatPiece(ps[0], Print(ps[1..]), feedback, userInput);
      FormatPrinted(ps[1..], feedback, userInput);
    }
  }

  /**
   * Conversely, a template that formats is the printed form of some pieces,
   * and formatting it gives the text those pieces stand for.
   */
  lemma {:induction false} FormatOnlyPrinted(template: string, feedback: string, userInput: string)
    ensures Format(template, feedback, userInput).Some? ==>
              exists ps :: Print(ps) == template
                           && Format(template, feedback, userInput) == Some(Render(ps, feedback, userInput))
    decreases |template|
  {
    if template == [] {
      assert Print([]) == template;
      FormatPrinted([], feedback, userInput);
    } else if Format(template, feedback, userInput).Some? {
      var p, n;
      if template[0] == '{' {
        if FeedbackField <= template {
          p, n := FeedbackHole, |FeedbackField|;
        } else if UserInputField <= template {
          p, n := UserInputHole, |UserInputField|;
        } else {
          p, n := Lit('{'), 2;
        }
      } else if template[0] == '}' {
        p, n := Lit('}'), 2;
      } else {
        p, n := Lit(template[0]), 1;
      }
      assert PieceText(p) == template[..n];
      assert template == PieceText(p) + template[n..];
      FormatPiece(p, template[n..], feedback, userInput);
      FormatOnlyPrinted(template[n..], feedback, userInput);
      var ps' :| Print(ps') == template[n..];
      var ps := [p] + ps';
      assert ps[1..] == ps';
      assert Print(ps) == template;
      FormatPrinted(ps, feedback, userInput);
    }
  }

  /** Substituting into the default template gives the fixed correction message. */
  lemma FormatDefaultCorrection(feedback: string, userInput: string)
    ensures Format(DefaultCorrectionPrompt, feedback, userInput)
            == Some(CorrectionIntro + feedback + CorrectionMiddle + userInput)
  {
    CorrectionTextIsPlain();
    FormatFeedbackThenUserInput(CorrectionIntro, CorrectionMiddle, feedback, userInput);
  }
}
