/**
 * The slice of a zod string schema the forms use: a chain of `.min(n)` and
 * `.regex(...)` checks, optionally followed by `.transform(toLowerCase)`.
 * Every check runs and each failing one reports its own issue, in chain
 * order; the transform only runs when no check failed.
 */
module ZodString {
  import opened Wrappers
  import opened JsText
  import UsernameRegex

  /** One reported validation problem, carrying the message the form shows. */
  datatype Issue = TooSmall(minimum: nat, message: string) | InvalidString(message: string)

  /** One link of the chain: `.min(n, {message})` or `.regex(/^([a-z\\-]+)$/i, {message})`. */
  datatype Check = Min(minimum: nat, message: string) | UsernamePattern(message: string)

  /** A string schema: its checks, and whether `.transform(toLowerCase)` follows them. */
  datatype Schema = Schema(checks: seq<Check>, lowercase: bool)

  predicate Passes(c: Check, s: string)
  {
    match c
    case Min(n, _) => Utf16Length(s) >= n
    case UsernamePattern(_) => UsernameRegex.Matches(s)
  }

  function IssueOf(c: Check): Issue
  {
    match c
    case Min(n, m) => TooSmall(n, m)
    case UsernamePattern(m) => InvalidString(m)
  }

  predicate AllPass(checks: seq<Check>, s: string)
  {
    forall k :: 0 <= k < |checks| ==> Passes(checks[k], s)
  }

  /** The issues of every failing check, in chain order. */
  function Issues(checks: seq<Check>, s: string): (r: seq<Issue>)
    ensures |r| <= |checks|
    ensures r == [] <==> AllPass(checks, s)
    ensures forall k :: 0 <= k < |checks| && !Passes(checks[k], s) ==> IssueOf(checks[k]) in r
    ensures forall e :: e in r ==> exists k :: 0 <= k < |checks| && !Passes(checks[k], s) && IssueOf(checks[k]) == e
  {
    if checks == [] then []
    else
      var rest := Issues(checks[1..], s);
      assert forall k :: 1 <= k < |checks| ==> checks[k] == checks[1..][k - 1];
      if Passes(checks[0], s) then rest else [IssueOf(checks[0])] + rest
  }

  /** `schema.safeParse(s)`: the (possibly lower-cased) input, or every issue found. */
  function Parse(schema: Schema, s: string): (r: Result<string, seq<Issue>>)
    ensures r.Success? <==> AllPass(schema.checks, s)
    ensures r.Success? && schema.lowercase ==> r.value == ToLower(s)
    ensures r.Success? && !schema.lowercase ==> r.value == s
    ensures r.Failure? ==> r.error != [] && forall e :: e in r.error <==> exists k :: 0 <= k < |schema.checks| && !Passes(schema.checks[k], s) && IssueOf(schema.checks[k]) == e
  {
    var issues := Issues(schema.checks, s);
    if issues != [] then Failure(issues)
    else if schema.lowercase then Success(ToLower(s))
    else Success(s)
  }

  /**
   * A username-shaped schema, `.min(n).regex(pattern).transform(toLowerCase)`:
   * it accepts exactly when both checks pass, returns the lower-cased input,
   * and otherwise reports precisely the checks that failed.
   */
  lemma MinThenPattern(n: nat, tooShort: string, badChars: string, s: string)
    ensures var r := Parse(Schema([Min(n, tooShort), UsernamePattern(badChars)], true), s);
      && (r.Success? <==> Utf16Length(s) >= n && UsernameRegex.Matches(s))
      && (r.Success? ==> r.value == ToLower(s))
      && (r.Failure? ==>
            r.error ==
            (if Utf16Length(s) < n then [TooSmall(n, tooShort)] else [])
            + (if UsernameRegex.Matches(s) then [] else [InvalidString(badChars)]))
  {
    var checks := [Min(n, tooShort), UsernamePattern(badChars)];
    assert AllPass(checks, s) <==> Passes(checks[0], s) && Passes(checks[1], s);
  }
}
