/**
 * `extract_challenge_params`: scan the script elements of a page in document
 * order and return the salt and difficulty of the first challenge call found.
 *
 * The page is given as the first text node of each `<script>` element, in
 * document order (`None` for a script element without text).
 */
module HtmlParser {
  import opened Wrappers
  import opened ChallengePattern
  import opened U32Parse

  /** The error kinds of the extractor. `RegexError` carries the rendered message of the regex error. */
  datatype ParseError =
    | SelectorError(message: string)
    | ChallengeScriptNotFound
    | RegexError(message: string)
    | ParameterNotFound(parameter: string)
    | InvalidParameterValue(parameter: string)

  /** The leftmost challenge call in a script's first text node, if there is one. */
  function ScriptCall(script: Option<string>): Option<CallText> {
    match script
    case None => None
    case Some(text) =>
      match FindCall(text)
      case None => None
      case Some((_, c)) => Some(c)
  }

  /** What a matched call yields: the salt capture and the difficulty capture parsed as a `u32`. */
  function CallOutcome(c: CallText): (r: Result<(string, nat), ParseError>)
    ensures r.Ok? ==> r.value.0 == c.head.salt && r.value.1 <= U32Max
    ensures r.Err? ==> r.error.InvalidParameterValue?
  {
    match ParseU32(c.difficulty.digits)
    case Ok(difficulty) => Ok((c.head.salt, difficulty))
    case Err(_) => Err(InvalidParameterValue("difficulty: " + c.difficulty.digits))
  }

  /** The first script (in document order) that holds a call decides the result. */
  function ExtractChallengeParams(scripts: seq<Option<string>>): (r: Result<(string, nat), ParseError>)
    ensures r.Ok? ==> r.value.1 <= U32Max
    ensures r.Err? ==> r.error == ChallengeScriptNotFound || r.error.InvalidParameterValue?
  {
    if scripts == [] then Err(ChallengeScriptNotFound)
    else
      match ScriptCall(scripts[0])
      case Some(c) => CallOutcome(c)
      case None => ExtractChallengeParams(scripts[1..])
  }

  /** Script `k` is the first one whose text holds a call. */
  ghost predicate DecidingScript(scripts: seq<Option<string>>, k: nat) {
    k < |scripts| && ScriptCall(scripts[k]).Some?
    && forall j :: 0 <= j < k ==> ScriptCall(scripts[j]).None?
  }

  /** A script yields a call exactly when its first text node holds a match; the call is the leftmost one. */
  lemma ScriptCallSpec(text: string)
    ensures ScriptCall(Some(text)).None? <==> forall j, c :: 0 <= j <= |text| ==> !CallAt(text, j, c)
    ensures ScriptCall(Some(text)).Some? ==> exists i :: LeftmostCall(text, i, ScriptCall(Some(text)).value)
  {
    FindCallLeftmost(text);
    if FindCall(text).Some? {
      assert LeftmostCall(text, FindCall(text).value.0, ScriptCall(Some(text)).value);
    }
  }

  /** A matched call yields its salt and the value of its difficulty digits, or `InvalidParameterValue`
      when those digits are not ASCII or their value exceeds 4294967295. */
  lemma CallOutcomeSpec(c: CallText)
    requires WellFormed(c)
    ensures CallOutcome(c).Ok? <==> AllAsciiDigits(c.difficulty.digits) && DecimalValue(c.difficulty.digits) <= U32Max
    ensures CallOutcome(c).Ok? ==> CallOutcome(c).value == (c.head.salt, DecimalValue(c.difficulty.digits))
    ensures CallOutcome(c).Err? ==> CallOutcome(c).error == InvalidParameterValue("difficulty: " + c.difficulty.digits)
  {
    var ds := c.difficulty.digits;
    ParseU32Spec(ds);
    assert ds[0] != '+' by {
      assert IsDigit(ds[0]);
    }
    assert Unsigned(ds) == ds;
  }

  /** No script holds a call exactly when the result is `ChallengeScriptNotFound`. */
  lemma {:induction false} NotFoundIff(scripts: seq<Option<string>>)
    ensures ExtractChallengeParams(scripts) == Err(ChallengeScriptNotFound)
      <==> forall k :: 0 <= k < |scripts| ==> ScriptCall(scripts[k]).None?
  {
    if scripts != [] {
      NotFoundIff(scripts[1..]);
      assert forall k :: 1 <= k < |scripts| ==> scripts[k] == scripts[1..][k - 1];
      if ScriptCall(scripts[0]).Some? {
        var c := ScriptCall(scripts[0]).value;
        assert CallOutcome(c) != Err(ChallengeScriptNotFound);
      }
    }
  }

  /** The first script holding a call decides the result; earlier scripts have none, later ones are not looked at. */
  lemma {:induction false} FirstMatchDecides(scripts: seq<Option<string>>, k: nat)
    requires DecidingScript(scripts, k)
    ensures ExtractChallengeParams(scripts) == CallOutcome(ScriptCall(scripts[k]).value)
  {
    if k > 0 {
      assert ScriptCall(scripts[0]).None?;
      assert DecidingScript(scripts[1..], k - 1) by {
        assert forall j :: 0 <= j < k - 1 ==> scripts[1..][j] == scripts[j + 1];
      }
      FirstMatchDecides(scripts[1..], k - 1);
    }
  }

  /** Scripts after a deciding script never influence the result; scripts without a call are skipped. */
  lemma {:induction false} ExtractAppend(front: seq<Option<string>>, back: seq<Option<string>>)
    ensures ExtractChallengeParams(front + back) ==
      if ExtractChallengeParams(front) == Err(ChallengeScriptNotFound) then ExtractChallengeParams(back)
      else ExtractChallengeParams(front)
  {
    if front == [] {
      assert front + back == back;
    } else {
      assert (front + back)[0] == front[0];
      assert (front + back)[1..] == front[1..] + back;
      if ScriptCall(front[0]).Some? {
        var c := ScriptCall(front[0]).value;
        assert CallOutcome(c) != Err(ChallengeScriptNotFound);
      } else {
        ExtractAppend(front[1..], back);
      }
    }
  }

  /** The result is a salt that is non-empty and free of quotes with a 32-bit difficulty, or one of two errors:
      `SelectorError`, `RegexError` and `ParameterNotFound` never occur. */
  lemma {:induction false} ExtractResultShape(scripts: seq<Option<string>>)
    ensures match ExtractChallengeParams(scripts)
      case Ok((salt, difficulty)) => |salt| > 0 && AllIn(salt, NotQuote) && difficulty <= U32Max
      case Err(e) => e == ChallengeScriptNotFound || e.InvalidParameterValue?
  {
    if scripts != [] {
      match ScriptCall(scripts[0])
      case Some(c) =>
        var text := scripts[0].value;
        FindCallLeftmost(text);
        CallOutcomeSpec(c);
      case None =>
        ExtractResultShape(scripts[1..]);
    }
  }

  /** A script whose text starts with a well-formed call yields that call's salt and difficulty. */
  lemma ExtractSingleCall(c: CallText, rest: string)
    requires WellFormed(c)
    ensures ExtractChallengeParams([Some(Render(c) + rest)]) == CallOutcome(c)
  {
    var t := Render(c) + rest;
    assert t[0..] == t;
    MatchCallComplete(c, rest);
  }

  const DocumentedScript: string := "window.sssg_challenge(\"salt_value\", 8, 5000);"

  const DocumentedHead := Head("", "", '"', "salt_value", '"', "")
  const DocumentedDifficulty := Arg(" ", "8", "")
  const DocumentedTimeout := Arg(" ", "5000", "")

  /** The pieces the pattern consumes in the documented example script are well formed. */
  lemma DocumentedPieces()
    ensures HeadWellFormed(DocumentedHead) && ArgWellFormed(DocumentedDifficulty) && ArgWellFormed(DocumentedTimeout)
  {
    assert AllIn(DocumentedHead.salt, NotQuote);
    assert AllIn(DocumentedTimeout.digits, Digit);
  }

  lemma DocumentedPiecesText()
    ensures RenderHead(DocumentedHead) == "(\"salt_value\","
    ensures RenderArg(DocumentedDifficulty, ',') + RenderArg(DocumentedTimeout, ')') == " 8, 5000)"
  {
  }

  /** Rendering those pieces gives back the documented example script. */
  lemma DocumentedRendering()
    ensures Render(CallText(DocumentedHead, DocumentedDifficulty, DocumentedTimeout)) + ";" == DocumentedScript
  {
    DocumentedPiecesText();
    var call := "window.sssg_challenge(\"salt_value\", 8, 5000)";
    assert CallName + ("(\"salt_value\"," + " 8, 5000)") == call;
    assert call + ";" == DocumentedScript;
  }

  /** The pieces the pattern consumes in the documented example script. */
  lemma DocumentedCall() returns (c: CallText)
    ensures WellFormed(c) && Render(c) + ";" == DocumentedScript
    ensures c.head.salt == "salt_value" && c.difficulty.digits == "8"
  {
    c := CallText(DocumentedHead, DocumentedDifficulty, DocumentedTimeout);
    DocumentedPieces();
    DocumentedRendering();
  }

  /** The example call of the extractor's documentation yields `("salt_value", 8)`. */
  lemma DocumentedExample()
    ensures ExtractChallengeParams([Some(DocumentedScript)]) == Ok(("salt_value", 8))
  {
    var c := DocumentedCall();
    ExtractSingleCall(c, ";");
    CallOutcomeSpec(c);
    assert "8"[..0] == "";
  }

  /** A call whose difficulty holds a non-ASCII digit (here U+1D7CE, a mathematical bold zero). */
  const WideDigitScript: string := "window.sssg_challenge(\"s\", 8\U{1D7CE}, 5)"

  lemma WideDigitPieces() returns (c: CallText)
    ensures WellFormed(c) && Render(c) == WideDigitScript
    ensures c.difficulty.digits == "8\U{1D7CE}"
  {
    c := CallText(Head("", "", '"', "s", '"', ""), Arg(" ", "8\U{1D7CE}", ""), Arg(" ", "5", ""));
    assert AllIn(c.difficulty.digits, Digit);
    assert RenderHead(c.head) == "(\"s\",";
    assert RenderArg(c.difficulty, ',') + RenderArg(c.timeout, ')') == " 8\U{1D7CE}, 5)";
  }

  /**
   * The pattern's digit class is wider than what `parse::<u32>` accepts: a
   * non-ASCII digit is matched, and the extractor stops at that call with
   * `InvalidParameterValue` rather than looking further.
   */
  lemma WideDigitRejected(later: seq<Option<string>>)
    ensures ExtractChallengeParams([Some(WideDigitScript)] + later) == Err(InvalidParameterValue("difficulty: 8\U{1D7CE}"))
  {
    var c := WideDigitPieces();
    assert WideDigitScript == Render(c) + "";
    ExtractSingleCall(c, "");
    WideDigitOutcome(c);
    ExtractAppend([Some(WideDigitScript)], later);
  }

  lemma WideDigitOutcome(c: CallText)
    requires c.difficulty.digits == "8\U{1D7CE}"
    ensures CallOutcome(c) == Err(InvalidParameterValue("difficulty: 8\U{1D7CE}"))
  {
    var ds := c.difficulty.digits;
    assert ds[0] == '8' && ds[1..] == "\U{1D7CE}";
    assert Unsigned(ds) == ds;
    assert Accumulate(ds[1..], 8) == Err(InvalidDigit);
    assert Accumulate(ds, 0) == Err(InvalidDigit);
    assert ParseU32(ds) == Err(InvalidDigit);
    assert "difficulty: " + ds == "difficulty: 8\U{1D7CE}";
  }
}
