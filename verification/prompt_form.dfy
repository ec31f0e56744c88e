/**
 * The prompt form: the text it holds, the error it shows, the validation it
 * runs on submit and the request it hands to the page.
 *
 * The submission time is a parameter. Submitting while a generation runs is
 * prevented by disabling the controls, which is not modelled.
 */
module PromptForm {
  import opened Wrappers
  import opened Text
  import opened ResumeTypes

  /** The textarea's `maxLength`, in UTF-16 code units. */
  const MaxLength: nat := 200

  /** Trimmed prompts shorter than this are rejected as too short. */
  const MinLength: nat := 3

  const EmptyPromptError: string := "Please enter a theme description"
  const ShortPromptError: string := "Please provide a more detailed theme description"

  /** The text in the textarea and the error shown under it (`""` for none). */
  datatype FormState = FormState(prompt: string, error: string)

  const InitialForm := FormState("", "")

  /** The textarea never holds more than `maxLength` code units. */
  predicate WellFormed(form: FormState) {
    Utf16Length(form.prompt) <= MaxLength
  }

  /** The form after a submit, and the request passed to the page if any. */
  datatype Submission = Submission(form: FormState, request: Option<ThemeRequest>)

  /**
   * `handleSubmit`: an all-blank prompt and a trimmed prompt shorter than
   * three code units set an error; anything else clears the error and
   * sends the trimmed prompt. The text in the textarea is never changed.
   */
  function HandleSubmit(form: FormState, timestamp: int): (o: Submission)
    ensures o.form.prompt == form.prompt
    ensures o.request.Some? ==> o.form.error == "" && o.request.value.timestamp == timestamp
    ensures o.request.Some? ==> o.request.value.userPrompt == Trim(form.prompt)
    ensures o.request.None? ==> o.form.error == EmptyPromptError || o.form.error == ShortPromptError
  {
    var trimmed := Trim(form.prompt);
    if trimmed == [] then
      Submission(form.(error := EmptyPromptError), None)
    else if Utf16Length(trimmed) < MinLength then
      Submission(form.(error := ShortPromptError), None)
    else
      Submission(form.(error := ""), Some(ThemeRequest(trimmed, timestamp)))
  }

  /**
   * The three outcomes of a submit, each characterised by the typed text:
   * the "enter" error exactly for an all-whitespace prompt, the "more
   * detailed" error exactly for a trimmed prompt of one or two code units,
   * and a request exactly when the trimmed prompt is at least three long.
   */
  lemma SubmitOutcomes(form: FormState, timestamp: int)
    ensures var o, n := HandleSubmit(form, timestamp), Utf16Length(Trim(form.prompt));
      && (o.form.error == EmptyPromptError <==> forall k :: 0 <= k < |form.prompt| ==> IsWhitespace(form.prompt[k]))
      && (o.form.error == ShortPromptError <==> 1 <= n < MinLength)
      && (o.request.Some? <==> n >= MinLength)
  {
    var trimmed := Trim(form.prompt);
    TrimEmptyIff(form.prompt);
    if trimmed != [] {
      assert Utf16Length(trimmed) >= |trimmed| > 0;
    }
  }

  /**
   * The prompt sent to the page is the typed text with surrounding
   * whitespace cut: the piece of it that starts after the leading whitespace
   * and is followed only by whitespace, with no whitespace at either end, so
   * trimming it again changes nothing; its length lies between three and the
   * textarea's cap.
   */
  lemma SubmittedPrompt(form: FormState, timestamp: int)
    requires WellFormed(form)
    requires HandleSubmit(form, timestamp).request.Some?
    ensures var p, s := HandleSubmit(form, timestamp).request.value.userPrompt, form.prompt;
      && (exists a :: SurroundedByWhitespace(s, p, a))
      && NoEdgeWhitespace(p)
      && Trim(p) == p
      && MinLength <= Utf16Length(p) <= MaxLength
  {
    var p := Trim(form.prompt);
    assert HandleSubmit(form, timestamp).request.value.userPrompt == p;
    TrimmedPiece(form.prompt);
    TrimSurrounded(form.prompt);
  }

  /** The trim of a text is surrounded in it by whitespace only. */
  lemma TrimSurrounded(s: string)
    ensures SurroundedByWhitespace(s, Trim(s), LeadingWhitespace(s))
  {
    TrimIsCore(s);
  }

  /** `p` is the slice of `s` at `a`, and everything of `s` before and after it is whitespace. */
  predicate SurroundedByWhitespace(s: string, p: string, a: int) {
    && 0 <= a && a + |p| <= |s| && p == s[a..a + |p|]
    && (forall k :: 0 <= k < a ==> IsWhitespace(s[k]))
    && (forall k :: a + |p| <= k < |s| ==> IsWhitespace(s[k]))
  }

  /** The trim of a text occurs in it, has no edge whitespace, is its own trim and is no longer. */
  lemma TrimmedPiece(s: string)
    ensures var p := Trim(s);
      && Contains(s, p)
      && NoEdgeWhitespace(p)
      && Trim(p) == p
      && Utf16Length(p) <= Utf16Length(s)
  {
    var p := Trim(s);
    var a := LeadingWhitespace(s);
    TrimIsCore(s);
    assert OccursAt(s, p, a);
    TrimIdempotent(s);
    TrimNoLonger(s);
  }

  /** Trimming never lengthens a text. */
  lemma TrimNoLonger(s: string)
    ensures Utf16Length(Trim(s)) <= Utf16Length(s)
  {
    var a := LeadingWhitespace(s);
    var n := |Trim(s)|;
    TrimIsCore(s);
    Utf16LengthSlice(s, a, a + n);
  }

  /** `onChange`: the textarea takes the new text and the error is cleared. */
  function OnChange(form: FormState, value: string): (f: FormState)
    ensures f.prompt == value && f.error == ""
  {
    FormState(value, "")
  }

  /** `handleExampleClick`: the textarea takes the example and the error is cleared. */
  function ExampleClick(form: FormState, example: string): (f: FormState)
    ensures f.prompt == example && f.error == ""
  {
    form.(prompt := example, error := "")
  }

  /**
   * The suggested prompts. Each is written as two halves joined only so the
   * verifier can reason about a short literal at a time; the strings are the
   * examples verbatim.
   */
  const ExampleThemes: seq<string> := [
    "I want to see the website " + "in a terminal theme like vi editor",
    "Make it look like " + "a retro 80s arcade game",
    "Design it like " + "a dark cyberpunk interface",
    "Create a " + "neon-glowing futuristic theme",
    "Make it look like " + "an old-school gameboy screen",
    "Design it like a " + "space station control panel",
    "Create a " + "minimalist Scandinavian design",
    "Make it look like " + "a vintage typewriter document"
  ]

  /**
   * Every example fits in the textarea and passes validation unchanged:
   * clicking it and then submitting sends exactly the example.
   */
  lemma ExampleSubmitsVerbatim(form: FormState, i: int, timestamp: int)
    requires 0 <= i < |ExampleThemes|
    ensures WellFormed(ExampleClick(form, ExampleThemes[i]))
    ensures HandleSubmit(ExampleClick(form, ExampleThemes[i]), timestamp)
            == Submission(FormState(ExampleThemes[i], ""), Some(ThemeRequest(ExampleThemes[i], timestamp)))
  {
    ExampleIsClean(i);
    CleanTextSubmitsVerbatim(form, ExampleThemes[i], timestamp);
  }

  /** Each example is between 3 and 100 characters and has no whitespace at either end. */
  lemma ExampleIsClean(i: int)
    requires 0 <= i < |ExampleThemes|
    ensures 3 <= |ExampleThemes[i]| <= 100 && NoEdgeWhitespace(ExampleThemes[i])
  {
    var e := ExampleThemes[i];
    if i == 0 {
      assert e[0] == 'I' && e[|e| - 1] == 'r';
    } else if i == 1 {
      assert e[0] == 'M' && e[|e| - 1] == 'e';
    } else if i == 2 {
      assert e[0] == 'D' && e[|e| - 1] == 'e';
    } else if i == 3 {
      assert e[0] == 'C' && e[|e| - 1] == 'e';
    } else if i == 4 {
      assert e[0] == 'M' && e[|e| - 1] == 'n';
    } else if i == 5 {
      assert e[0] == 'D' && e[|e| - 1] == 'l';
    } else if i == 6 {
      assert e[0] == 'C' && e[|e| - 1] == 'n';
    } else {
      assert e[0] == 'M' && e[|e| - 1] == 't';
    }
  }

  /** A text of 3 to 100 characters with no edge whitespace, once clicked, is submitted verbatim. */
  lemma CleanTextSubmitsVerbatim(form: FormState, e: string, timestamp: int)
    requires 3 <= |e| <= 100 && NoEdgeWhitespace(e)
    ensures WellFormed(ExampleClick(form, e))
    ensures HandleSubmit(ExampleClick(form, e), timestamp) == Submission(FormState(e, ""), Some(ThemeRequest(e, timestamp)))
  {
    NoEdgeWhitespaceTrimsToSelf(e);
    var n := Utf16Length(e);
    assert MinLength <= n <= MaxLength;
    var f := ExampleClick(form, e);
    assert f == FormState(e, "");
    assert Trim(f.prompt) == e;
  }

  /** A text the textarea accepts keeps the form well formed, whatever was there before. */
  lemma EditKeepsWellFormed(form: FormState, value: string)
    requires Utf16Length(value) <= MaxLength
    ensures WellFormed(OnChange(form, value))
    ensures OnChange(form, value).error == ""
  {
  }

  /** Submitting never makes a well-formed form ill-formed. */
  lemma SubmitKeepsWellFormed(form: FormState, timestamp: int)
    requires WellFormed(form)
    ensures WellFormed(HandleSubmit(form, timestamp).form)
  {
  }
}
