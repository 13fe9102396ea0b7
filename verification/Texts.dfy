/** The small text checks the protocol shares: identifiers, digests, and lists of distinct strings. */
module Texts {
  import opened Basics
  import opened Ordering

  predicate LowerOrDigit(c: char) {
    'a' <= c <= 'z' || '0' <= c <= '9'
  }

  predicate IdentifierChar(c: char) {
    LowerOrDigit(c) || c == '.' || c == '_' || c == ':' || c == '-'
  }

  /** One to 128 characters, the first a lower-case letter or digit. */
  predicate Identifier(s: Bytes) {
    && 1 <= |s| <= 128 && LowerOrDigit(s[0])
    && forall i | 0 <= i < |s| :: IdentifierChar(s[i])
  }

  /** Sixty-four lower-case hexadecimal digits. */
  predicate ValidDigest(s: Bytes) {
    |s| == 64 && forall i | 0 <= i < |s| :: '0' <= s[i] <= '9' || 'a' <= s[i] <= 'f'
  }

  predicate UniqueStrings(s: seq<Bytes>) {
    && (forall i | 0 <= i < |s| :: s[i] != "")
    && forall i, j | 0 <= i < j < |s| :: s[i] != s[j]
  }

  predicate SortedUniqueStrings(s: seq<Bytes>) {
    UniqueStrings(s) && Sorted(s, Self)
  }

  const HEX_DIGITS: set<char> := {'0', '1', '2', '3', '4', '5', '6', '7', '8', '9', 'a', 'b', 'c', 'd', 'e', 'f'}

  const LETTERS: set<char> :=
    {'a', 'b', 'c', 'd', 'e', 'f', 'g', 'h', 'i', 'j', 'k', 'l', 'm', 'n', 'o', 'p', 'q', 'r', 's', 't', 'u', 'v', 'w', 'x', 'y', 'z'}

  const DIGITS: set<char> := {'0', '1', '2', '3', '4', '5', '6', '7', '8', '9'}

  const SIGNS: set<char> := {'.', '_', ':', '-'}

  /** Which texts are digests and identifiers, character by character. */
  lemma DigestsAndIdentifiers(s: Bytes)
    ensures ValidDigest(s) <==> |s| == 64 && forall c | c in s :: c in HEX_DIGITS
    ensures Identifier(s) <==> 0 < |s| < 129 && s[0] !in SIGNS && forall c | c in s :: c in LETTERS + DIGITS + SIGNS
  {
    EachChar(s, HEX_DIGITS);
    EachChar(s, LETTERS + DIGITS + SIGNS);
    forall i | 0 <= i < |s|
      ensures IdentifierChar(s[i]) <==> s[i] in LETTERS + DIGITS + SIGNS
      ensures LowerOrDigit(s[i]) <==> s[i] in LETTERS + DIGITS + SIGNS && s[i] !in SIGNS
      ensures '0' <= s[i] <= '9' || 'a' <= s[i] <= 'f' <==> s[i] in HEX_DIGITS
    {
      Alphabets(s[i]);
    }
    hide LowerOrDigit, IdentifierChar, HEX_DIGITS, LETTERS, DIGITS, SIGNS;
  }

  lemma EachChar(s: Bytes, some: set<char>)
    ensures (forall c | c in s :: c in some) <==> forall i | 0 <= i < |s| :: s[i] in some
  {
    assert forall i | 0 <= i < |s| :: s[i] in s;
  }

  lemma Alphabets(c: char)
    ensures 'a' <= c <= 'z' <==> c in LETTERS
    ensures '0' <= c <= '9' <==> c in DIGITS
    ensures c == '.' || c == '_' || c == ':' || c == '-' <==> c in SIGNS
    ensures '0' <= c <= '9' || 'a' <= c <= 'f' <==> c in HEX_DIGITS
  {
  }

  method ValidateUniqueStrings(values: seq<Bytes>) returns (ok: bool)
    ensures ok <==> UniqueStrings(values)
  {
    var seen: set<Bytes> := {};
    for index := 0 to |values|
      invariant UniqueStrings(values[..index])
      invariant forall v :: v in seen <==> v in values[..index]
    {
      var value := values[index];
      assert values[..index + 1] == values[..index] + [value];
      if value == "" || value in seen {
        return false;
      }
      seen := seen + {value};
    }
    assert values[..|values|] == values;
    ok := true;
  }

  /** Neighbours are compared; that the whole is sorted follows. */
  method ValidateSortedUniqueStrings(values: seq<Bytes>) returns (ok: bool)
    ensures ok <==> SortedUniqueStrings(values)
  {
    ok := ValidateUniqueStrings(values);
    if !ok {
      return;
    }
    if |values| == 0 {
      return;
    }
    for index := 1 to |values|
      invariant Sorted(values[..index], Self)
    {
      if !LessEq(values[index - 1], values[index]) {
        assert Self(values[index - 1]) == values[index - 1];
        return false;
      }
      OneMoreSorted(values, index);
    }
    assert values[..|values|] == values;
  }

  lemma OneMoreSorted(values: seq<Bytes>, n: nat)
    requires 0 < n < |values| && Sorted(values[..n], Self) && LessEq(values[n - 1], values[n])
    ensures Sorted(values[..n + 1], Self)
  {
    forall i | 0 <= i < n ensures LessEq(values[i], values[n]) {
      if i < n - 1 {
        assert LessEq(Self(values[..n][i]), Self(values[..n][n - 1]));
        Transitive(values[i], values[n - 1], values[n]);
      }
    }
  }
}
