/** Translation tables and the pieces of LocalizationProvider.getString's fallback policy
    that do not depend on provider state. */
module Bundles {

  datatype Option<T> = None | Some(value: T)

  /** A value stored in a resource bundle; getString casts it to String, which fails on NonText. */
  datatype Entry = Text(value: string) | NonText

  /** A translation table: key to stored value, parent bundles already folded in. */
  type Bundle = map<string, Entry>

  /** ResourceBundle.getBundle for the locale of a language tag; None when no bundle
      can be found (MissingResourceException). */
  type Loader = string -> Option<Bundle>

  /** Re-reading a stored value's ISO-8859-1 bytes as UTF-8; None when an encoding is
      not supported (UnsupportedEncodingException). */
  type Decoder = string -> Option<string>

  /** The sentinel getString returns when decoding fails. */
  const UnknownEncoding: string := "unknown encoding"

  /** The text getString returns for a key it cannot translate. */
  function Placeholder(key: string): (r: string)
    ensures |r| == |key| + 2
    ensures r[0] == '?' && r[|r| - 1] == '?' && r[1..|r| - 1] == key
  {
    "?" + key + "?"
  }

  /** A missing key can always be told apart from a decoding failure. */
  lemma PlaceholderIsNotUnknownEncoding(key: string)
    ensures Placeholder(key) != UnknownEncoding
  {
    assert Placeholder(key)[0] == '?' != 'u' == UnknownEncoding[0];
  }

  /** Different missing keys give different placeholders: the key can be read back. */
  lemma PlaceholderInjective(k1: string, k2: string)
    requires Placeholder(k1) == Placeholder(k2)
    ensures k1 == k2
  {
    var p := Placeholder(k1);
    assert k1 == p[1..|p| - 1];
  }

  /** ASCII case folding (Character.toLowerCase restricted to A-Z). */
  function Lower(c: char): (d: char)
    ensures 'A' <= c <= 'Z' ==> d as int == c as int + 32
    ensures !('A' <= c <= 'Z') ==> d == c
  {
    if 'A' <= c <= 'Z' then (c as int + 32) as char else c
  }

  /** String.equalsIgnoreCase for a non-null argument, over ASCII case folding. */
  predicate EqualsIgnoreCase(a: string, b: string)
  {
    |a| == |b| && forall i :: 0 <= i < |a| ==> Lower(a[i]) == Lower(b[i])
  }

  /** equalsIgnoreCase is an equivalence relation ... */
  lemma EqualsIgnoreCaseIsEquivalence(a: string, b: string, c: string)
    ensures EqualsIgnoreCase(a, a)
    ensures EqualsIgnoreCase(a, b) ==> EqualsIgnoreCase(b, a)
    ensures EqualsIgnoreCase(a, b) && EqualsIgnoreCase(b, c) ==> EqualsIgnoreCase(a, c)
  {
  }

  /** ... so the language guard does not depend on which spelling of a tag was stored:
      a tag is ignored against one spelling exactly when it is ignored against the other. */
  lemma GuardIgnoresStoredSpelling(stored: string, other: string, tag: string)
    requires EqualsIgnoreCase(stored, other)
    ensures EqualsIgnoreCase(tag, stored) <==> EqualsIgnoreCase(tag, other)
  {
    EqualsIgnoreCaseIsEquivalence(tag, stored, other);
    EqualsIgnoreCaseIsEquivalence(tag, other, stored);
    EqualsIgnoreCaseIsEquivalence(stored, other, tag);
  }

  /** Tags that differ only in ASCII case are equal ignoring case; "en" and "hr" are not. */
  lemma CaseExamples()
    ensures EqualsIgnoreCase("EN", "en")
    ensures EqualsIgnoreCase("hR", "Hr")
    ensures !EqualsIgnoreCase("en", "hr")
  {
    assert "en"[0] == 'e' && "hr"[0] == 'h';
    assert Lower("en"[0]) != Lower("hr"[0]);
  }
}
