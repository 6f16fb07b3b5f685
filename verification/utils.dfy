/** String and value helpers of the data layer (src/utils/index.js). */
module Utils {
  import opened Values

  /**
   * The plural of a type name: "es" after a trailing 's', "s" otherwise.
   * Used for URL paths and as the fallback payload key.
   */
  function Pluralize(s: string): (r: string)
    ensures |r| == |s| + 1 || |r| == |s| + 2
    ensures r[..|s|] == s
    ensures |r| == |s| + 2 <==> |s| > 0 && s[|s| - 1] == 's'
    ensures r[|r| - 1] == 's'
    ensures |r| == |s| + 2 ==> r[|s|..] == "es"
  {
    if |s| > 0 && s[|s| - 1] == 's' then s + "es" else s + "s"
  }

  /** `value === null || value === undefined` */
  predicate IsNone(v: Value) {
    v == Null || v == Undefined
  }

  /** null, undefined, the empty string and the empty array. */
  predicate IsEmpty(v: Value) {
    v == Null || v == Undefined || v == Str("") || v == Arr([])
  }

  lemma PluralizeEmpty()
    ensures Pluralize("") == "s"
  {
  }

  /** The plural is never the singular, so the two payload keys never coincide. */
  lemma PluralizeChanges(s: string)
    ensures Pluralize(s) != s
  {
    assert |Pluralize(s)| > |s|;
  }

  /**
   * Two type names can share one plural: "bus" and "buse" both become
   * "buses", so their URL paths and plural payload keys coincide.
   */
  lemma PluralizeNotInjective()
    ensures Pluralize("bus") == Pluralize("buse") == "buses"
  {
  }

  /** Apart from the collision above, the plural determines the singular. */
  lemma PluralizeInjectiveOnLength(a: string, b: string)
    requires |a| == |b|
    requires Pluralize(a) == Pluralize(b)
    ensures a == b
  {
    assert a == Pluralize(a)[..|a|];
    assert b == Pluralize(b)[..|b|];
  }

  lemma NoneIsEmpty(v: Value)
    ensures IsNone(v) ==> IsEmpty(v)
  {
  }

  /**
   * Emptiness against truthiness: apart from the empty array, an empty value
   * is falsy; a falsy value that is not empty is `false` or the number 0.
   */
  lemma EmptyVersusFalsy(v: Value)
    ensures IsEmpty(v) && v != Arr([]) ==> !Truthy(v)
    ensures !Truthy(v) && !IsEmpty(v) ==> v == Bool(false) || v == Num(0)
  {
  }
}
