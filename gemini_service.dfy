/** The deterministic part of GeminiService.kt: the section parser
    `parseFullAnalysis` and the error wrapping of `performFullAnalysis`.
    The model call itself is an input (`ModelReply`). */
module GeminiService {
  import opened Wrappers
  import opened KotlinText

  /** The three sections the prompt asks for. */
  datatype Section = Interpretation | Conditions | Treatment

  /** The label each section regex looks for after `##`. */
  function Label(sec: Section): string {
    match sec
    case Interpretation => "INTERPRETATION"
    case Conditions => "SUGGESTED CONDITIONS"
    case Treatment => "TREATMENT RECOMMENDATIONS"
  }

  /** The text a section takes when its regex finds no match. */
  function Fallback(sec: Section): string {
    match sec
    case Interpretation => "Interpretation not available"
    case Conditions => "Condition suggestions not available"
    case Treatment => "Treatment recommendations not available"
  }

  /** The `Triple` returned by `parseFullAnalysis`, with named slots. */
  datatype Sections = Sections(interpretation: string, conditions: string, treatment: string)

  /** `w` occurs in `s` at index `i`. */
  predicate StartsAt(s: string, i: nat, w: string) {
    i + |w| <= |s| && s[i..i + |w|] == w
  }

  predicate IsLineTerminator(c: char) {
    c == '\n' || c == '\r' || c == '\U{85}' || c == '\U{2028}' || c == '\U{2029}'
  }

  /** `$` of a `java.util.regex.Pattern` without MULTILINE: at the end of the
      input, before a final line terminator (but not between `\r` and `\n`),
      or before a final `\r\n`. */
  predicate DollarAt(s: string, i: nat)
    requires i <= |s|
  {
    i == |s| ||
    (i == |s| - 1 && IsLineTerminator(s[i]) && !(s[i] == '\n' && 0 < i && s[i - 1] == '\r')) ||
    (i == |s| - 2 && s[i] == '\r' && s[i + 1] == '\n')
  }

  /** The lookahead `(?=##|$)`. */
  predicate LookaheadAt(s: string, i: nat)
    requires i <= |s|
  {
    StartsAt(s, i, "##") || DollarAt(s, i)
  }

  /** Greedy `\s*` from index `i`: the end of the run of pattern spaces. */
  function SkipSpace(s: string, i: nat): (j: nat)
    requires i <= |s|
    ensures i <= j <= |s|
    ensures forall k :: i <= k < j ==> IsPatternSpace(s[k])
    ensures j == |s| || !IsPatternSpace(s[j])
    decreases |s| - i
  {
    if i < |s| && IsPatternSpace(s[i]) then SkipSpace(s, i + 1) else i
  }

  /** Lazy `.+?` (any character, DOT_MATCHES_ALL) followed by the lookahead:
      the first index from `e` on where the lookahead holds. */
  function LazyEnd(s: string, e: nat): (r: nat)
    requires 0 < e <= |s|
    ensures e <= r <= |s| && LookaheadAt(s, r)
    ensures forall p :: e <= p < r ==> !LookaheadAt(s, p)
    decreases |s| - e
  {
    if LookaheadAt(s, e) then e else LazyEnd(s, e + 1)
  }

  /** The tail `\s*(.+?)(?=##|$)` of a section regex, once the label has
      matched and ends at index `e`; the result is capture group 1.
      `\s*` is greedy: when the whitespace runs to the end of the text it
      gives back one character, which `.+?` then takes; when the label is
      the last thing in the text there is nothing to take and no match. */
  function GroupAfterLabel(s: string, e: nat): Option<string>
    requires e <= |s|
  {
    var k := SkipSpace(s, e);
    if k < |s| then Some(s[k..LazyEnd(s, k + 1)])
    else if e < k then Some(s[k - 1..])
    else None
  }

  /** The whole regex `##\s*LABEL\s*(.+?)(?=##|$)` tried at start index `i`.
      The first `\s*` never gives anything back, since every label starts
      with a letter, so it runs to the first non-space character. */
  function MatchAt(s: string, i: nat, name: string): Option<string>
    requires i <= |s|
  {
    if !StartsAt(s, i, "##") then None
    else
      var j := SkipSpace(s, i + 2);
      if !StartsAt(s, j, name) then None
      else GroupAfterLabel(s, j + |name|)
  }

  /** `Regex.find`: the match at the leftmost start index from `i` on. */
  function FindFrom(s: string, name: string, i: nat): Option<string>
    requires i <= |s|
    decreases |s| - i
  {
    match MatchAt(s, i, name)
    case Some(g) => Some(g)
    case None => if i < |s| then FindFrom(s, name, i + 1) else None
  }

  /** `find(text)?.groupValues?.get(1)?.trim() ?: fallback` for one section. */
  function Slot(text: string, sec: Section): string {
    match FindFrom(text, Label(sec), 0)
    case Some(g) => Trim(g)
    case None => Fallback(sec)
  }

  /** `parseFullAnalysis`: total, it never throws. */
  function ParseFullAnalysis(text: string): Sections {
    Sections(Slot(text, Interpretation), Slot(text, Conditions), Slot(text, Treatment))
  }

  /** What `model.generateContent` gave back: a response whose `text` may be
      null, or an exception whose `message` may be null. */
  datatype ModelReply = Returned(text: Option<string>) | Threw(message: Option<string>)

  const FailurePrefix: string := "Failed to perform full analysis: "
  const NoResponseMessage: string := "No response generated"

  /** A Kotlin string template renders a null message as "null". */
  function Rendered(message: Option<string>): string {
    message.GetOr("null")
  }

  /** Lines 176-185 of `performFullAnalysis`: a reply with text is parsed;
      a null text or any exception becomes a failure whose message is the
      prefix followed by the cause. */
  function PerformFullAnalysis(reply: ModelReply): (r: Result<Sections, string>)
    ensures r.Success? <==> reply.Returned? && reply.text.Some?
    ensures r.Success? ==> r.value == ParseFullAnalysis(reply.text.value)
    ensures r.Failure? ==> StartsAt(r.error, 0, FailurePrefix)
    ensures reply == Returned(None) ==> r == Failure(FailurePrefix + NoResponseMessage)
    ensures reply.Threw? ==> r == Failure(FailurePrefix + Rendered(reply.message))
  {
    match reply
    case Returned(None) => Failure(FailurePrefix + NoResponseMessage)
    case Returned(Some(text)) => Success(ParseFullAnalysis(text))
    case Threw(message) => Failure(FailurePrefix + Rendered(message))
  }
}
