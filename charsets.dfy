/** The character classes a password is drawn from, and the alphabet built from
    the checked classes (the value-level specification of getAvailableChars). */
module Charsets {

  const Uppercase: string := "ABCDEFGHIJKLMNOPQRSTUVWXYZ"
  const Lowercase: string := "abcdefghijklmnopqrstuvwxyz"
  const Numbers: string := "0123456789"
  const Symbols: string := "!@#$%^&*()_+-=[]{}|;:,.<>?"

  /** Characters dropped when "exclude similar characters" is checked. */
  const SimilarChars: string := "il1Lo0O"

  /** Membership in SimilarChars, written out character by character. */
  predicate IsSimilar(c: char)
    ensures IsSimilar(c) <==> c in SimilarChars
  {
    c == 'i' || c == 'l' || c == '1' || c == 'L' || c == 'o' || c == '0' || c == 'O'
  }

  /** The alphabet used when no class is checked: note the order, lowercase first. */
  const Fallback: string := Lowercase + Uppercase + Numbers

  /** The four class checkboxes. */
  datatype Selection = Selection(uppercase: bool, lowercase: bool, numbers: bool, symbols: bool)

  /** The alphabet together with the checkbox state after building it. */
  datatype Pool = Pool(selection: Selection, chars: string)

  predicate AnySelected(sel: Selection) {
    sel.uppercase || sel.lowercase || sel.numbers || sel.symbols
  }

  /** The checked classes' strings, concatenated in the order uppercase, lowercase,
      numbers, symbols. It is empty exactly when no box is checked. */
  function Selected(sel: Selection): (r: string)
    ensures r == "" <==> !AnySelected(sel)
  {
    (if sel.uppercase then Uppercase else "") +
    (if sel.lowercase then Lowercase else "") +
    (if sel.numbers then Numbers else "") +
    (if sel.symbols then Symbols else "")
  }

  /** `s` with every character of SimilarChars filtered out. */
  function WithoutSimilar(s: string): (r: string)
    ensures |r| <= |s|
    ensures forall c :: c in r ==> !IsSimilar(c)
  {
    if s == [] then []
    else (if IsSimilar(s[0]) then [] else [s[0]]) + WithoutSimilar(s[1..])
  }

  /** What getAvailableChars returns, with the checkboxes as it leaves them: when the
      concatenation is empty it falls back to lowercase + uppercase + numbers and checks
      those three boxes; then it filters out the similar characters if asked to.
      Afterwards some box is always checked, the symbols box is untouched, and an
      excluded similar character never appears. */
  function AvailableChars(sel: Selection, excludeSimilar: bool): (r: Pool)
    ensures AnySelected(r.selection)
    ensures r.selection.symbols == sel.symbols
    ensures excludeSimilar ==> forall c :: c in r.chars ==> !IsSimilar(c)
  {
    var raw := Selected(sel);
    var pool :=
      if raw == "" then Pool(sel.(lowercase := true, uppercase := true, numbers := true), Fallback)
      else Pool(sel, raw);
    if excludeSimilar then pool.(chars := WithoutSimilar(pool.chars)) else pool
  }

  /** The set of characters of a string. */
  function CharSet(s: string): set<char> {
    set c | c in s
  }

  lemma {:induction false} WithoutSimilarKeeps(s: string, c: char)
    requires !IsSimilar(c)
    ensures multiset(WithoutSimilar(s))[c] == multiset(s)[c]
  {
    if s != [] {
      WithoutSimilarKeeps(s[1..], c);
      assert s == [s[0]] + s[1..];
    }
  }

  lemma {:induction false} WithoutSimilarMember(s: string, c: char)
    requires !IsSimilar(c)
    ensures c in WithoutSimilar(s) <==> c in s
  {
    if s != [] {
      WithoutSimilarMember(s[1..], c);
      assert s == [s[0]] + s[1..];
    }
  }

  lemma WithoutSimilarHead(s: string)
    requires s != [] && !IsSimilar(s[0])
    ensures WithoutSimilar(s) != [] && WithoutSimilar(s)[0] == s[0]
  {
  }

  lemma {:induction false} WithoutSimilarAppend(a: string, b: string)
    ensures WithoutSimilar(a + b) == WithoutSimilar(a) + WithoutSimilar(b)
  {
    if a != [] {
      assert (a + b)[1..] == a[1..] + b;
      WithoutSimilarAppend(a[1..], b);
    } else {
      assert a + b == b;
    }
  }

  lemma {:induction false} WithoutSimilarClean(s: string)
    requires forall c :: c in s ==> !IsSimilar(c)
    ensures WithoutSimilar(s) == s
  {
    if s != [] {
      assert s[0] in s;
      WithoutSimilarClean(s[1..]);
    }
  }

  /** Uppercase 'I' is not among the similar characters: it survives the filter. */
  lemma CapitalIKept(sel: Selection)
    requires sel.uppercase
    ensures 'I' in AvailableChars(sel, true).chars
  {
    var raw := Selected(sel);
    assert raw == Uppercase + raw[26..];
    assert raw[8] == 'I';
    WithoutSimilarMember(raw, 'I');
  }

  /** With at least one class checked, the checkboxes are left alone and the alphabet
      is the checked classes in the fixed order, filtered when asked to. */
  lemma SelectedOrder(sel: Selection, excludeSimilar: bool)
    requires AnySelected(sel)
    ensures AvailableChars(sel, excludeSimilar).selection == sel
    ensures AvailableChars(sel, excludeSimilar).chars ==
            if excludeSimilar then WithoutSimilar(Selected(sel)) else Selected(sel)
  {
  }

  /** With no class checked, the lowercase, uppercase and numbers boxes become checked,
      the symbols box stays as it was, and the alphabet is the fallback. */
  lemma FallbackWhenNone(sel: Selection, excludeSimilar: bool)
    requires !AnySelected(sel)
    ensures AvailableChars(sel, excludeSimilar).selection == Selection(true, true, true, sel.symbols)
    ensures AvailableChars(sel, excludeSimilar).chars ==
            if excludeSimilar then WithoutSimilar(Fallback) else Fallback
  {
  }

  /** `x` and `y` hold the same characters, as a multiset and so as a set, in a
      different order. */
  predicate SameCharsReordered(x: string, y: string) {
    multiset(x) == multiset(y) && CharSet(x) == CharSet(y) && x != y
  }

  /** Swapping the first two parts of a three-part string keeps its characters; if the
      two parts start differently, the order changes. */
  lemma SwapFirstTwo(a: string, b: string, c: string)
    requires a != [] && b != [] && a[0] != b[0]
    ensures SameCharsReordered(a + b + c, b + a + c)
  {
    assert (a + b + c)[0] != (b + a + c)[0];
    assert multiset(a + b + c) == multiset(a) + multiset(b) + multiset(c);
    assert multiset(b + a + c) == multiset(b) + multiset(a) + multiset(c);
    forall x ensures x in a + b + c <==> x in b + a + c {
      assert x in a + b + c <==> multiset(a + b + c)[x] > 0;
      assert x in b + a + c <==> multiset(b + a + c)[x] > 0;
    }
  }

  /** The same after filtering, when both parts start with distinct kept characters. */
  lemma ReorderFiltered(a: string, b: string, c: string)
    requires a != [] && b != [] && !IsSimilar(a[0]) && !IsSimilar(b[0]) && a[0] != b[0]
    ensures SameCharsReordered(WithoutSimilar(a + b + c), WithoutSimilar(b + a + c))
  {
    WithoutSimilarAppend(a, b);
    WithoutSimilarAppend(a + b, c);
    WithoutSimilarAppend(b, a);
    WithoutSimilarAppend(b + a, c);
    WithoutSimilarHead(a);
    WithoutSimilarHead(b);
    SwapFirstTwo(WithoutSimilar(a), WithoutSimilar(b), WithoutSimilar(c));
  }

  /** The fallback yields the same characters as checking lowercase, uppercase and
      numbers explicitly, as a set (and even as a multiset), but in a different order. */
  lemma FallbackMatchesExplicit(excludeSimilar: bool)
    ensures AvailableChars(Selection(false, false, false, false), excludeSimilar).selection ==
            AvailableChars(Selection(true, true, true, false), excludeSimilar).selection
    ensures SameCharsReordered(AvailableChars(Selection(false, false, false, false), excludeSimilar).chars,
                               AvailableChars(Selection(true, true, true, false), excludeSimilar).chars)
  {
    var explicitRaw := Uppercase + Lowercase + Numbers;
    assert Selected(Selection(true, true, true, false)) == explicitRaw by {
      assert explicitRaw + "" == explicitRaw;
    }
    if excludeSimilar {
      ReorderFiltered(Lowercase, Uppercase, Numbers);
    } else {
      SwapFirstTwo(Lowercase, Uppercase, Numbers);
    }
  }

  /** Every class keeps a character after filtering and the fallback covers the case of
      no class at all: the alphabet is never empty. */
  lemma AvailableNonEmpty(sel: Selection, excludeSimilar: bool)
    ensures |AvailableChars(sel, excludeSimilar).chars| > 0
  {
    var raw := Selected(sel);
    var base := if raw == "" then Fallback else raw;
    // A character of `base` that the filter keeps.
    var k: char;
    if raw == "" {
      assert base[0] == 'a';
      k := 'a';
    } else if sel.uppercase {
      assert base[0] == 'A';
      k := 'A';
    } else if sel.lowercase {
      assert base[0] == 'a';
      k := 'a';
    } else if sel.numbers {
      assert base[2] == '2';
      k := '2';
    } else {
      assert base[0] == '!';
      k := '!';
    }
    assert k in base;
    WithoutSimilarMember(base, k);
  }
}
