/** Textual replacement of placeholders, which all begin with an opening brace. */
module Replacing {
  /** Every occurrence of `key`, from left to right and without overlap, replaced by `v`. */
  function ReplaceAll(s: string, key: string, v: string): string
    requires key != ""
  {
    if key <= s then v + ReplaceAll(s[|key|..], key, v)
    else if s == "" then ""
    else [s[0]] + ReplaceAll(s[1..], key, v)
  }

  /** No placeholder can begin in such a text. */
  predicate Opaque(s: string) {
    forall i | 0 <= i < |s| :: s[i] != '{'
  }

  /** Text without an opening brace is passed over. */
  lemma {:induction false} PassOver(a: string, s: string, key: string, v: string)
    requires Opaque(a) && key != "" && key[0] == '{'
    ensures ReplaceAll(a + s, key, v) == a + ReplaceAll(s, key, v)
  {
    if a == "" {
      assert a + s == s;
    } else {
      assert (a + s)[1..] == a[1..] + s && (a + s)[0] != key[0];
      PassOver(a[1..], s, key, v);
      assert [a[0]] + (a[1..] + ReplaceAll(s, key, v)) == a + ReplaceAll(s, key, v);
    }
  }
}
