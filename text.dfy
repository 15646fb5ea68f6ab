/** Case-insensitive substring search on names, the behaviour of pandas'
    `Series.str.contains(keyword, case=False)` for plain (non-regex) ASCII keywords. */
module Text {

  /** ASCII lower-casing of one character; every other character is left alone. */
  function LowerChar(c: char): char
  {
    if 'A' <= c <= 'Z' then (c as int + 32) as char else c
  }

  /** ASCII lower-casing of a whole string. */
  function Lower(s: string): string
  {
    seq(|s|, i requires 0 <= i < |s| => LowerChar(s[i]))
  }

  /** The lower-cased `sub` occurs in the lower-cased `s` starting at position `i`. */
  ghost predicate OccursAt(s: string, sub: string, i: int)
  {
    0 <= i && i + |sub| <= |s| && Lower(s)[i..i + |sub|] == Lower(sub)
  }

  /** The specification of a case-insensitive substring match. */
  ghost predicate Occurs(s: string, sub: string)
  {
    exists i :: OccursAt(s, sub, i)
  }

  /** Characters `k..` of `sub` agree, ignoring case, with those of `s` from `i + k` on. */
  function AgreesFrom(s: string, sub: string, i: nat, k: nat): bool
    requires i + |sub| <= |s| && k <= |sub|
    decreases |sub| - k
  {
    k == |sub| || (LowerChar(s[i + k]) == LowerChar(sub[k]) && AgreesFrom(s, sub, i, k + 1))
  }

  lemma {:induction false} AgreesFromCorrect(s: string, sub: string, i: nat, k: nat)
    requires i + |sub| <= |s| && k <= |sub|
    ensures AgreesFrom(s, sub, i, k) <==>
      forall j :: k <= j < |sub| ==> LowerChar(s[i + j]) == LowerChar(sub[j])
    decreases |sub| - k
  {
    if k < |sub| {
      AgreesFromCorrect(s, sub, i, k + 1);
    }
  }

  /** A window that fits is an occurrence exactly when all its characters agree. */
  lemma OccursAtAgrees(s: string, sub: string, i: nat)
    requires i + |sub| <= |s|
    ensures OccursAt(s, sub, i) <==> AgreesFrom(s, sub, i, 0)
  {
    AgreesFromCorrect(s, sub, i, 0);
    if AgreesFrom(s, sub, i, 0) {
      assert forall j :: 0 <= j < |sub| ==> Lower(s)[i..i + |sub|][j] == Lower(sub)[j];
    }
    if OccursAt(s, sub, i) {
      forall j | 0 <= j < |sub| ensures LowerChar(s[i + j]) == LowerChar(sub[j]) {
        assert Lower(s)[i..i + |sub|][j] == Lower(sub)[j];
      }
    }
  }

  /** Searches for an occurrence at position `i` or later. */
  function ContainsFrom(s: string, sub: string, i: nat): bool
    decreases |s| - i
  {
    if i + |sub| > |s| then false
    else if AgreesFrom(s, sub, i, 0) then true
    else ContainsFrom(s, sub, i + 1)
  }

  lemma {:induction false} ContainsFromCorrect(s: string, sub: string, i: nat)
    ensures ContainsFrom(s, sub, i) <==> exists j :: i <= j && OccursAt(s, sub, j)
    decreases |s| - i
  {
    if i + |sub| <= |s| {
      OccursAtAgrees(s, sub, i);
      ContainsFromCorrect(s, sub, i + 1);
      assert forall j :: i <= j && OccursAt(s, sub, j) ==> j == i || i + 1 <= j;
    }
  }

  /** `str.contains(sub, case=False)` on one present name. */
  function ContainsIgnoreCase(s: string, sub: string): (b: bool)
    ensures b <==> Occurs(s, sub)
  {
    ContainsFromCorrect(s, sub, 0);
    ContainsFrom(s, sub, 0)
  }

  /** Case does not matter on either side of the match. */
  lemma {:induction false} ContainsIgnoresCase(s: string, sub: string)
    ensures ContainsIgnoreCase(Lower(s), sub) == ContainsIgnoreCase(s, sub)
    ensures ContainsIgnoreCase(s, Lower(sub)) == ContainsIgnoreCase(s, sub)
  {
    assert Lower(Lower(s)) == Lower(s);
    assert Lower(Lower(sub)) == Lower(sub);
    assert forall i :: OccursAt(Lower(s), sub, i) <==> OccursAt(s, sub, i);
    assert forall i :: OccursAt(s, Lower(sub), i) <==> OccursAt(s, sub, i);
  }
}
