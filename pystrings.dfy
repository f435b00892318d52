/** The two Python string operations the checker relies on:
    `s.replace(" ", "")` and the substring test `pat in s`. */
module PyStrings {

  /** `pat` occurs in `s` starting at index `i`. */
  ghost predicate OccursAt(pat: string, s: string, i: int)
  {
    0 <= i && i + |pat| <= |s| && s[i..i + |pat|] == pat
  }

  /** The meaning of Python's `pat in s` for strings: some window of `s` equals `pat`. */
  ghost predicate Occurs(pat: string, s: string)
  {
    exists i :: OccursAt(pat, s, i)
  }

  /** Python's `pat in s`, computed by trying every start position in turn. */
  function Contains(pat: string, s: string): (r: bool)
    ensures r <==> Occurs(pat, s)
    decreases |s|
  {
    if |s| < |pat| then
      assert forall i :: !OccursAt(pat, s, i);
      false
    else if s[..|pat|] == pat then
      assert OccursAt(pat, s, 0);
      true
    else
      var r := Contains(pat, s[1..]);
      OccursShift(pat, s);
      r
  }

  /** Helper for Contains: when `pat` is not a prefix of `s`, an occurrence in `s`
      is exactly an occurrence in `s[1..]`, shifted by one. */
  lemma OccursShift(pat: string, s: string)
    requires |pat| <= |s| && s[..|pat|] != pat
    ensures Occurs(pat, s) <==> Occurs(pat, s[1..])
  {
    if Occurs(pat, s) {
      var i :| OccursAt(pat, s, i);
      assert i != 0;
      assert s[1..][i - 1..i - 1 + |pat|] == s[i..i + |pat|];
      assert OccursAt(pat, s[1..], i - 1);
    }
    if Occurs(pat, s[1..]) {
      var i :| OccursAt(pat, s[1..], i);
      assert s[1..][i..i + |pat|] == s[i + 1..i + 1 + |pat|];
      assert OccursAt(pat, s, i + 1);
    }
  }

  /** A one-character pattern occurs exactly when the character is a member. */
  lemma {:induction false} ContainsChar(c: char, s: string)
    ensures Contains([c], s) <==> c in s
  {
    if c in s {
      var i :| 0 <= i < |s| && s[i] == c;
      assert s[i..i + 1] == [c];
      assert OccursAt([c], s, i);
    }
    if Occurs([c], s) {
      var i :| OccursAt([c], s, i);
      assert s[i] == s[i..i + 1][0];
    }
  }

  /** Python's `s.replace(" ", "")`: every space character is deleted and the
      other characters keep their order. */
  function StripSpaces(s: string): (r: string)
    ensures ' ' !in r
    ensures |r| <= |s|
    ensures forall c :: c != ' ' ==> (c in r <==> c in s)
  {
    if s == [] then []
    else if s[0] == ' ' then StripSpaces(s[1..])
    else [s[0]] + StripSpaces(s[1..])
  }

  /** Deleting spaces keeps every other character as often as it occurs. */
  lemma {:induction false} StripSpacesMultiset(s: string)
    ensures multiset(StripSpaces(s)) == multiset(s)[' ' := 0]
  {
    if s != [] {
      assert s == [s[0]] + s[1..];
      StripSpacesMultiset(s[1..]);
    }
  }

  /** Deleting spaces distributes over concatenation. */
  lemma {:induction false} StripSpacesAppend(a: string, b: string)
    ensures StripSpaces(a + b) == StripSpaces(a) + StripSpaces(b)
  {
    if a == [] {
      assert a + b == b;
    } else {
      assert (a + b)[1..] == a[1..] + b;
      StripSpacesAppend(a[1..], b);
    }
  }

  /** A string without spaces is left as it is. */
  lemma {:induction false} StripSpacesNoSpace(s: string)
    requires ' ' !in s
    ensures StripSpaces(s) == s
  {
    if s != [] {
      assert ' ' !in s[1..];
      StripSpacesNoSpace(s[1..]);
    }
  }

  /** Deleting spaces twice is the same as once. */
  lemma StripSpacesIdempotent(s: string)
    ensures StripSpaces(StripSpaces(s)) == StripSpaces(s)
  {
  }

  /** Inserting a space anywhere into a text does not change it once spaces are deleted. */
  lemma InsertSpace(a: string, b: string)
    ensures StripSpaces(a + " " + b) == StripSpaces(a + b)
  {
    StripSpacesAppend(a + " ", b);
    StripSpacesAppend(a, " ");
    StripSpacesAppend(a, b);
    assert StripSpaces(" ") == [];
  }
}
