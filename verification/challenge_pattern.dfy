/**
 * The challenge-call pattern of the extractor: the literal text
 * `window.sssg_challenge`, optional whitespace, `(`, optional whitespace, a
 * quote (single or double), the salt (one or more characters that are not
 * quotes, capture group 1), a quote, optional whitespace, `,`, optional
 * whitespace, the difficulty (one or more decimal digits, group 2), optional
 * whitespace, `,`, optional whitespace, the timeout (one or more decimal
 * digits, group 3), optional whitespace and `)`.
 *
 * A match is described declaratively by a `CallText`: the pieces that the
 * pattern's tokens consume, and `Render`, which glues them back together.
 * `MatchCall` is a deterministic matcher written by hand; it is proved to
 * succeed exactly on the strings that begin with the rendering of a well-formed
 * `CallText`, and to return that very `CallText`. Hence at any start position
 * there is at most one match, and `FindCall` (the first start at which
 * `MatchCall` succeeds) is the leftmost match of the regular expression.
 */
module ChallengePattern {
  import opened Wrappers

  const CallName: string := "window.sssg_challenge"

  /** The regex class of whitespace characters: the Unicode White_Space property. */
  predicate IsSpace(c: char) {
    ('\t' <= c <= '\r') || c == ' ' || c == '\U{0085}' || c == '\U{00A0}' || c == '\U{1680}'
    || ('\U{2000}' <= c <= '\U{200A}') || c == '\U{2028}' || c == '\U{2029}'
    || c == '\U{202F}' || c == '\U{205F}' || c == '\U{3000}'
  }

  /** Ten consecutive code points starting at `zero`. */
  predicate InDigitBlock(c: char, zero: int) {
    zero <= c as int < zero + 10
  }

  /** The regex class of digits: a decimal digit (Unicode general category Nd, Unicode 15.0). */
  predicate IsDigit(c: char) {
    ('0' <= c <= '9') || IsOtherDigit(c)
  }

  /** The non-ASCII decimal-digit blocks: those of the Basic Multilingual Plane, then those of the supplementary planes. */
  predicate IsOtherDigit(c: char) {
    InDigitBlock(c, 0x0660) || InDigitBlock(c, 0x06F0) || InDigitBlock(c, 0x07C0)
    || InDigitBlock(c, 0x0966) || InDigitBlock(c, 0x09E6) || InDigitBlock(c, 0x0A66)
    || InDigitBlock(c, 0x0AE6) || InDigitBlock(c, 0x0B66) || InDigitBlock(c, 0x0BE6)
    || InDigitBlock(c, 0x0C66) || InDigitBlock(c, 0x0CE6) || InDigitBlock(c, 0x0D66)
    || InDigitBlock(c, 0x0DE6) || InDigitBlock(c, 0x0E50) || InDigitBlock(c, 0x0ED0)
    || InDigitBlock(c, 0x0F20) || InDigitBlock(c, 0x1040) || InDigitBlock(c, 0x1090)
    || InDigitBlock(c, 0x17E0) || InDigitBlock(c, 0x1810) || InDigitBlock(c, 0x1946)
    || InDigitBlock(c, 0x19D0) || InDigitBlock(c, 0x1A80) || InDigitBlock(c, 0x1A90)
    || InDigitBlock(c, 0x1B50) || InDigitBlock(c, 0x1BB0) || InDigitBlock(c, 0x1C40)
    || InDigitBlock(c, 0x1C50) || InDigitBlock(c, 0xA620) || InDigitBlock(c, 0xA8D0)
    || InDigitBlock(c, 0xA900) || InDigitBlock(c, 0xA9D0) || InDigitBlock(c, 0xA9F0)
    || InDigitBlock(c, 0xAA50) || InDigitBlock(c, 0xABF0) || InDigitBlock(c, 0xFF10)
    || InDigitBlock(c, 0x104A0) || InDigitBlock(c, 0x10D30) || InDigitBlock(c, 0x11066)
    || InDigitBlock(c, 0x110F0) || InDigitBlock(c, 0x11136) || InDigitBlock(c, 0x111D0)
    || InDigitBlock(c, 0x112F0) || InDigitBlock(c, 0x11450) || InDigitBlock(c, 0x114D0)
    || InDigitBlock(c, 0x11650) || InDigitBlock(c, 0x116C0) || InDigitBlock(c, 0x11730)
    || InDigitBlock(c, 0x118E0) || InDigitBlock(c, 0x11950) || InDigitBlock(c, 0x11C50)
    || InDigitBlock(c, 0x11D50) || InDigitBlock(c, 0x11DA0) || InDigitBlock(c, 0x11F50)
    || InDigitBlock(c, 0x16A60) || InDigitBlock(c, 0x16AC0) || InDigitBlock(c, 0x16B50)
    || (0x1D7CE <= c as int <= 0x1D7FF)
    || InDigitBlock(c, 0x1E140) || InDigitBlock(c, 0x1E2F0) || InDigitBlock(c, 0x1E4F0)
    || InDigitBlock(c, 0x1E950) || InDigitBlock(c, 0x1FBF0)
  }

  /** Either quote character. */
  predicate IsQuote(c: char) {
    c == '\'' || c == '"'
  }

  /** The three repeated character classes of the pattern: whitespace, anything but a quote, and digits. */
  datatype Class = Space | NotQuote | Digit

  predicate InClass(c: char, k: Class) {
    match k
    case Space => IsSpace(c)
    case NotQuote => !IsQuote(c)
    case Digit => IsDigit(c)
  }

  predicate AllIn(s: string, k: Class) {
    forall i :: 0 <= i < |s| ==> InClass(s[i], k)
  }

  /** What the pattern consumes after the function name, up to and including the first comma. */
  datatype Head = Head(sp1: string, sp2: string, open: char, salt: string, close: char, sp3: string)

  /** What one numeric argument consumes before its separator: whitespace, digits, whitespace. */
  datatype Arg = Arg(lead: string, digits: string, trail: string)

  /** The text consumed by each token of one match: capture group 1 is `head.salt`,
      group 2 is `difficulty.digits` and group 3 is `timeout.digits`. */
  datatype CallText = CallText(head: Head, difficulty: Arg, timeout: Arg)

  predicate HeadWellFormed(h: Head) {
    && AllIn(h.sp1, Space) && AllIn(h.sp2, Space) && AllIn(h.sp3, Space)
    && IsQuote(h.open) && IsQuote(h.close)
    && |h.salt| > 0 && AllIn(h.salt, NotQuote)
  }

  predicate ArgWellFormed(a: Arg) {
    AllIn(a.lead, Space) && |a.digits| > 0 && AllIn(a.digits, Digit) && AllIn(a.trail, Space)
  }

  /** What each token of the pattern accepts. */
  predicate WellFormed(c: CallText) {
    HeadWellFormed(c.head) && ArgWellFormed(c.difficulty) && ArgWellFormed(c.timeout)
  }

  function RenderHead(h: Head): string {
    h.sp1 + ("(" + (h.sp2 + ([h.open] + (h.salt + ([h.close] + (h.sp3 + ","))))))
  }

  function RenderArg(a: Arg, sep: char): string {
    a.lead + (a.digits + (a.trail + [sep]))
  }

  /** The matched text, token by token. */
  function Render(c: CallText): string {
    CallName + (RenderHead(c.head) + (RenderArg(c.difficulty, ',') + RenderArg(c.timeout, ')')))
  }

  /** The pattern matches `t` at start index `i`, consuming the pieces `c`. */
  ghost predicate CallAt(t: string, i: nat, c: CallText) {
    i <= |t| && WellFormed(c) && Render(c) <= t[i..]
  }

  /**
   * The longest prefix of `u` whose characters all lie in class `k`, and what
   * follows it.
   */
  function TakeWhile(u: string, k: Class): (r: (string, string))
    ensures u == r.0 + r.1 && AllIn(r.0, k)
    ensures r.1 == [] || !InClass(r.1[0], k)
  {
    if u != [] && InClass(u[0], k) then
      var (run, rest) := TakeWhile(u[1..], k);
      assert u == [u[0]] + (run + rest);
      ([u[0]] + run, rest)
    else
      ([], u)
  }

  /** Matches the opening parenthesis, the quoted salt and the first comma at the start of `v`; returns the pieces and what follows. */
  function MatchHead(v: string): Option<(Head, string)> {
    var (sp1, v1) := TakeWhile(v, Space);
    if !(v1 != [] && v1[0] == '(') then None else
    var (sp2, v2) := TakeWhile(v1[1..], Space);
    if !(v2 != [] && IsQuote(v2[0])) then None else
    var (salt, v3) := TakeWhile(v2[1..], NotQuote);
    if !(salt != [] && v3 != []) then None else
    var (sp3, v4) := TakeWhile(v3[1..], Space);
    if !(v4 != [] && v4[0] == ',') then None else
    Some((Head(sp1, sp2, v2[0], salt, v3[0], sp3), v4[1..]))
  }

  /** Matches one numeric argument followed by `sep` at the start of `v`; returns the pieces and what follows. */
  function MatchArg(v: string, sep: char): Option<(Arg, string)> {
    var (lead, v1) := TakeWhile(v, Space);
    var (digits, v2) := TakeWhile(v1, Digit);
    if digits == [] then None else
    var (trail, v3) := TakeWhile(v2, Space);
    if !(v3 != [] && v3[0] == sep) then None else
    Some((Arg(lead, digits, trail), v3[1..]))
  }

  /** The deterministic matcher, anchored at the start of `u`: every repeated class takes as much as it can. */
  function MatchCall(u: string): Option<CallText> {
    if !(CallName <= u) then None else
    match MatchHead(u[|CallName|..])
    case None => None
    case Some((h, v1)) =>
      match MatchArg(v1, ',')
      case None => None
      case Some((d, v2)) =>
        match MatchArg(v2, ')')
        case None => None
        case Some((t, _)) => Some(CallText(h, d, t))
  }

  /** An unanchored search: the first start index at or after `i` where the anchored matcher succeeds, with its result. */
  function Leftmost<T>(t: string, i: nat, anchored: string -> Option<T>): Option<(nat, T)>
    requires i <= |t|
    decreases |t| - i
  {
    match anchored(t[i..])
    case Some(x) => Some((i, x))
    case None => if i == |t| then None else Leftmost(t, i + 1, anchored)
  }

  /** The leftmost match of the pattern in `t`, with its start index and pieces. */
  function FindCall(t: string): Option<(nat, CallText)> {
    Leftmost(t, 0, MatchCall)
  }

  /** No character belongs to two of the token classes that follow one another in the pattern. */
  lemma ClassesSeparate(c: char)
    ensures IsSpace(c) ==> !IsDigit(c) && !IsQuote(c) && c != '(' && c != ',' && c != ')'
    ensures IsDigit(c) ==> !IsQuote(c) && c != ',' && c != ')'
  {
  }

  /** Any split of `u` into a run of class `k` and a rest not starting with `k` is the one `TakeWhile` finds. */
  lemma {:induction false} TakeWhileUnique(u: string, k: Class, run: string, rest: string)
    requires u == run + rest && AllIn(run, k)
    requires rest == [] || !InClass(rest[0], k)
    ensures TakeWhile(u, k) == (run, rest)
  {
    if run == [] {
      assert u == rest;
    } else {
      assert u[0] == run[0] && u[1..] == run[1..] + rest;
      TakeWhileUnique(u[1..], k, run[1..], rest);
      assert [u[0]] + run[1..] == run;
    }
  }

  lemma Assoc(a: string, b: string, c: string)
    ensures (a + b) + c == a + (b + c)
  {
  }

  /** `RenderHead(h) + rest` with the rest pushed inside every concatenation. */
  lemma RenderHeadThen(h: Head, rest: string)
    ensures RenderHead(h) + rest
      == h.sp1 + ("(" + (h.sp2 + ([h.open] + (h.salt + ([h.close] + (h.sp3 + ("," + rest)))))))
  {
    Assoc(h.sp3, ",", rest);
    Assoc([h.close], h.sp3 + ",", rest);
    Assoc(h.salt, [h.close] + (h.sp3 + ","), rest);
    Assoc([h.open], h.salt + ([h.close] + (h.sp3 + ",")), rest);
    Assoc(h.sp2, [h.open] + (h.salt + ([h.close] + (h.sp3 + ","))), rest);
    Assoc("(", h.sp2 + ([h.open] + (h.salt + ([h.close] + (h.sp3 + ",")))), rest);
    Assoc(h.sp1, "(" + (h.sp2 + ([h.open] + (h.salt + ([h.close] + (h.sp3 + ","))))), rest);
  }

  /** `RenderArg(a, sep) + rest` with the rest pushed inside every concatenation. */
  lemma RenderArgThen(a: Arg, sep: char, rest: string)
    ensures RenderArg(a, sep) + rest == a.lead + (a.digits + (a.trail + ([sep] + rest)))
  {
    Assoc(a.trail, [sep], rest);
    Assoc(a.digits, a.trail + [sep], rest);
    Assoc(a.lead, a.digits + (a.trail + [sep]), rest);
  }

  lemma MatchHeadComplete(h: Head, rest: string)
    requires HeadWellFormed(h)
    ensures MatchHead(RenderHead(h) + rest) == Some((h, rest))
  {
    var r4 := "," + rest;
    var r3 := [h.close] + (h.sp3 + r4);
    var r2 := [h.open] + (h.salt + r3);
    var r1 := "(" + (h.sp2 + r2);
    RenderHeadThen(h, rest);
    ClassesSeparate(h.open);
    TakeWhileUnique(h.sp1 + r1, Space, h.sp1, r1);
    TakeWhileUnique(r1[1..], Space, h.sp2, r2);
    TakeWhileUnique(r2[1..], NotQuote, h.salt, r3);
    TakeWhileUnique(r3[1..], Space, h.sp3, r4);
  }

  lemma MatchHeadSound(v: string)
    ensures MatchHead(v).Some? ==>
      HeadWellFormed(MatchHead(v).value.0) && v == RenderHead(MatchHead(v).value.0) + MatchHead(v).value.1
  {
    if MatchHead(v).Some? {
      var (sp1, v1) := TakeWhile(v, Space);
      var (sp2, v2) := TakeWhile(v1[1..], Space);
      var (salt, v3) := TakeWhile(v2[1..], NotQuote);
      var (sp3, v4) := TakeWhile(v3[1..], Space);
      var h := Head(sp1, sp2, v2[0], salt, v3[0], sp3);
      assert MatchHead(v) == Some((h, v4[1..]));
      assert v1 == [v1[0]] + v1[1..];
      assert v2 == [v2[0]] + v2[1..];
      assert v3 == [v3[0]] + v3[1..];
      assert v4 == [v4[0]] + v4[1..];
      RenderHeadThen(h, v4[1..]);
    }
  }

  lemma MatchArgComplete(a: Arg, sep: char, rest: string)
    requires ArgWellFormed(a) && (sep == ',' || sep == ')')
    ensures MatchArg(RenderArg(a, sep) + rest, sep) == Some((a, rest))
  {
    var r3 := [sep] + rest;
    var r2 := a.trail + r3;
    var r1 := a.digits + r2;
    RenderArgThen(a, sep, rest);
    ClassesSeparate(sep);
    ClassesSeparate(a.digits[0]);
    ClassesSeparate(r2[0]);
    TakeWhileUnique(a.lead + r1, Space, a.lead, r1);
    TakeWhileUnique(r1, Digit, a.digits, r2);
    TakeWhileUnique(r2, Space, a.trail, r3);
  }

  lemma MatchArgSound(v: string, sep: char)
    ensures MatchArg(v, sep).Some? ==>
      ArgWellFormed(MatchArg(v, sep).value.0) && v == RenderArg(MatchArg(v, sep).value.0, sep) + MatchArg(v, sep).value.1
  {
    if MatchArg(v, sep).Some? {
      var (lead, v1) := TakeWhile(v, Space);
      var (digits, v2) := TakeWhile(v1, Digit);
      var (trail, v3) := TakeWhile(v2, Space);
      var a := Arg(lead, digits, trail);
      assert MatchArg(v, sep) == Some((a, v3[1..]));
      assert v3 == [v3[0]] + v3[1..];
      RenderArgThen(a, sep, v3[1..]);
    }
  }

  /** The rendering of a well-formed `CallText`, followed by anything, is matched with exactly those pieces. */
  lemma MatchCallComplete(c: CallText, rest: string)
    requires WellFormed(c)
    ensures MatchCall(Render(c) + rest) == Some(c)
  {
    var r2 := RenderArg(c.timeout, ')') + rest;
    var r1 := RenderArg(c.difficulty, ',') + r2;
    var u := CallName + (RenderHead(c.head) + r1);
    assert Render(c) + rest == u;
    assert u[|CallName|..] == RenderHead(c.head) + r1;
    MatchHeadComplete(c.head, r1);
    MatchArgComplete(c.difficulty, ',', r2);
    MatchArgComplete(c.timeout, ')', rest);
  }

  /** Whatever the matcher returns is well formed, and its rendering is a prefix of the input. */
  lemma MatchCallSound(u: string)
    ensures MatchCall(u).Some? ==> WellFormed(MatchCall(u).value) && Render(MatchCall(u).value) <= u
  {
    if MatchCall(u).Some? {
      var v := u[|CallName|..];
      MatchHeadSound(v);
      var (h, v1) := MatchHead(v).value;
      MatchArgSound(v1, ',');
      var (d, v2) := MatchArg(v1, ',').value;
      MatchArgSound(v2, ')');
      var (t, v3) := MatchArg(v2, ')').value;
      var c := CallText(h, d, t);
      assert MatchCall(u) == Some(c);
      var a, b, e := RenderHead(h), RenderArg(d, ','), RenderArg(t, ')');
      assert u == CallName + (a + (b + (e + v3)));
      Assoc(b, e, v3);
      Assoc(a, b + e, v3);
      Assoc(CallName, a + (b + e), v3);
    }
  }

  /** The matcher succeeds with `c` exactly when the pattern matches a prefix of `u` with pieces `c`. */
  lemma MatchCallIff(u: string, c: CallText)
    ensures MatchCall(u) == Some(c) <==> WellFormed(c) && Render(c) <= u
  {
    MatchCallSound(u);
    if WellFormed(c) && Render(c) <= u {
      assert u == Render(c) + u[|Render(c)|..];
      MatchCallComplete(c, u[|Render(c)|..]);
    }
  }

  /** The match at `i` is the leftmost one: no match of the pattern starts before it. */
  ghost predicate LeftmostCall(t: string, i: nat, c: CallText) {
    CallAt(t, i, c) && forall j, c' :: 0 <= j < i ==> !CallAt(t, j, c')
  }

  /** `Leftmost` returns the first start index (at or after `i`) where the matcher succeeds, or nothing if it never does. */
  lemma {:induction false} LeftmostFirst<T>(t: string, i: nat, anchored: string -> Option<T>)
    requires i <= |t|
    ensures Leftmost(t, i, anchored).Some? ==>
      i <= Leftmost(t, i, anchored).value.0 <= |t|
      && anchored(t[Leftmost(t, i, anchored).value.0..]) == Some(Leftmost(t, i, anchored).value.1)
      && forall j :: i <= j < Leftmost(t, i, anchored).value.0 ==> anchored(t[j..]).None?
    ensures Leftmost(t, i, anchored).None? ==> forall j :: i <= j <= |t| ==> anchored(t[j..]).None?
    decreases |t| - i
  {
    if anchored(t[i..]).None? && i < |t| {
      LeftmostFirst(t, i + 1, anchored);
    }
  }

  /** `FindCall` yields exactly the leftmost match of the pattern, and nothing when the pattern matches nowhere. */
  lemma FindCallLeftmost(t: string)
    ensures FindCall(t).Some? ==> LeftmostCall(t, FindCall(t).value.0, FindCall(t).value.1)
    ensures FindCall(t).None? <==> forall j, c :: 0 <= j <= |t| ==> !CallAt(t, j, c)
  {
    LeftmostFirst(t, 0, MatchCall);
    forall j, c | 0 <= j <= |t|
      ensures MatchCall(t[j..]) == Some(c) <==> CallAt(t, j, c)
    {
      MatchCallIff(t[j..], c);
    }
  }
}
