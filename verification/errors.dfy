/**
 * `parse_error`: the four failure signatures of pip's output, tried in a
 * fixed order, the first that matches deciding the message.
 *
 * The regular expressions are modelled as case-insensitive literal tests
 * (`re.IGNORECASE`), with the two non-literal parts written out: `(\w+)`
 * after the not-found prefix needs one word character, and `'.*'` after
 * the uninstall prefix needs a closing quote later on the same line.
 */
module Errors {
  import opened Wrappers
  import opened Text

  datatype ErrorKind = NotFound | Network | Permission | Dependency

  /** The shapes of the four regular expressions. */
  datatype Signature =
    | Literal(text: string)           // the text itself
    | ThenWord(prefix: string)        // prefix followed by a `\w` character
    | ThenQuoted(prefix: string)      // prefix, then a `'` later on the same line

  /** `\w` on the ASCII range: letters, digits and the underscore. */
  predicate IsWordChar(c: char) {
    'a' <= c <= 'z' || 'A' <= c <= 'Z' || '0' <= c <= '9' || c == '_'
  }

  /** `re.search(pattern, output, re.IGNORECASE)` finds a match at index `i`. */
  predicate MatchesAt(sig: Signature, output: string, i: nat) {
    var low := Lower(output);
    match sig
    case Literal(t) => OccursAt(low, Lower(t), i)
    case ThenWord(pre) =>
      OccursAt(low, Lower(pre), i) && i + |pre| < |output| && IsWordChar(output[i + |pre|])
    case ThenQuoted(pre) =>
      OccursAt(low, Lower(pre), i) &&
      exists j | i + |pre| <= j < |output| :: output[j] == '\'' && '\n' !in output[i + |pre|..j]
  }

  /** `re.search(pattern, output, re.IGNORECASE)` finds a match anywhere. */
  predicate Matches(sig: Signature, output: string) {
    exists i: nat | i <= |output| :: MatchesAt(sig, output, i)
  }

  /** The `patterns` dictionary of `parse_error`, in its iteration order. */
  const Signatures: seq<(ErrorKind, Signature)> := [
    (NotFound, ThenWord("ERROR: Could not find a version that satisfies the requirement ")),
    (Network, Literal("ERROR: Could not install packages due to an OSError")),
    (Permission, Literal("ERROR: Could not install packages due to an EnvironmentError: [Errno 13]")),
    (Dependency, ThenQuoted("ERROR: Cannot uninstall '"))
  ]

  /** The user-facing text for each kind. */
  function Message(k: ErrorKind): string {
    match k
    case NotFound => "包不存在或名称错误"
    case Network => "网络连接失败，请检查镜像源"
    case Permission => "权限不足，请尝试管理员权限运行"
    case Dependency => "依赖冲突，请使用--user参数"
  }

  /** The text given when no signature matches. */
  const UnknownMessage: string := "未知错误"

  /** The messages tell the kinds apart, and none of them reads as unknown. */
  lemma MessagesDistinct(a: ErrorKind, b: ErrorKind)
    ensures Message(a) == Message(b) <==> a == b
    ensures Message(a) != UnknownMessage
  {
  }

  /** The index of the first entry of `sigs` at or after `k` that matches. */
  function FirstMatchFrom(sigs: seq<(ErrorKind, Signature)>, output: string, k: nat): (r: Option<nat>)
    requires k <= |sigs|
    ensures r.Some? ==> k <= r.value < |sigs| && Matches(sigs[r.value].1, output)
    ensures r.Some? ==> forall j :: k <= j < r.value ==> !Matches(sigs[j].1, output)
    ensures r.None? ==> forall j :: k <= j < |sigs| ==> !Matches(sigs[j].1, output)
    decreases |sigs| - k
  {
    if k == |sigs| then None
    else if Matches(sigs[k].1, output) then Some(k)
    else FirstMatchFrom(sigs, output, k + 1)
  }

  /** The kind of the first signature that matches, if any. */
  function Classify(output: string): (r: Option<ErrorKind>)
    ensures r.None? <==> forall j :: 0 <= j < |Signatures| ==> !Matches(Signatures[j].1, output)
    ensures r.Some? ==>
      exists i :: (0 <= i < |Signatures| && r.value == Signatures[i].0 && Matches(Signatures[i].1, output) &&
                   forall j :: 0 <= j < i ==> !Matches(Signatures[j].1, output))
  {
    match FirstMatchFrom(Signatures, output, 0)
    case None => None
    case Some(i) => Some(Signatures[i].0)
  }

  /** `parse_error`: the message of the first matching signature, or the unknown message. */
  function ParseError(output: string): (r: string)
    ensures r == UnknownMessage || exists k: ErrorKind :: r == Message(k)
  {
    match Classify(output)
    case None => UnknownMessage
    case Some(k) => Message(k)
  }

  /** First match wins: signature `i` decides exactly when it matches and none before it does. */
  lemma ParseErrorFirstMatch(output: string, i: nat)
    requires i < |Signatures|
    ensures ParseError(output) == Message(Signatures[i].0) <==>
      Matches(Signatures[i].1, output) && forall j :: 0 <= j < i ==> !Matches(Signatures[j].1, output)
  {
    var kinds := [NotFound, Network, Permission, Dependency];
    assert forall j :: 0 <= j < |Signatures| ==> Signatures[j].0 == kinds[j];
    var r := FirstMatchFrom(Signatures, output, 0);
    if r.Some? {
      assert ParseError(output) == Message(kinds[r.value]);
      MessagesDistinct(kinds[r.value], kinds[i]);
    } else {
      assert ParseError(output) == UnknownMessage;
      MessagesDistinct(kinds[i], kinds[i]);
    }
  }

  /** Output showing both the not-found and the permission signature reads as not found. */
  lemma NotFoundBeforePermission(output: string)
    requires Matches(Signatures[0].1, output)
    requires Matches(Signatures[2].1, output)
    ensures ParseError(output) == Message(NotFound)
  {
    ParseErrorFirstMatch(output, 0);
  }

  /** The unknown message comes exactly when no signature matches. */
  lemma UnknownIffNoMatch(output: string)
    ensures ParseError(output) == UnknownMessage <==>
      forall j :: 0 <= j < |Signatures| ==> !Matches(Signatures[j].1, output)
  {
    if Classify(output).Some? {
      MessagesDistinct(Classify(output).value, Classify(output).value);
    }
  }

  /** Empty output matches no signature. */
  lemma EmptyOutputUnknown()
    ensures ParseError("") == UnknownMessage
  {
    forall j | 0 <= j < |Signatures|
      ensures !Matches(Signatures[j].1, "")
    {
    }
  }
}
