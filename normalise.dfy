/** Postcode normalisation: `PostcodeLookup._clean`, which lower-cases a raw
    postcode and removes every space from it. */
module Normalise {

  predicate IsUpper(c: char) {
    'A' <= c <= 'Z'
  }

  /** Python's `lower()` on one character (ASCII letters only). */
  function Lower(c: char): (r: char)
    ensures !IsUpper(r)
    ensures r == ' ' <==> c == ' '
    ensures !IsUpper(c) ==> r == c
  {
    if IsUpper(c) then (c as int + 32) as char else c
  }

  /** `s.lower()` */
  function Lowered(s: string): (r: string)
    ensures |r| == |s|
  {
    if s == [] then [] else Lowered(s[..|s| - 1]) + [Lower(s[|s| - 1])]
  }

  /** Lower-casing one more character appends its lower-case form. */
  lemma LoweredSnoc(s: string, c: char)
    ensures Lowered(s + [c]) == Lowered(s) + [Lower(c)]
  {
    assert (s + [c])[..|s|] == s;
  }

  /** Lower-casing maps each character on its own. */
  lemma {:induction false} LoweredAt(s: string)
    ensures |Lowered(s)| == |s|
    ensures forall i :: 0 <= i < |s| ==> Lowered(s)[i] == Lower(s[i])
  {
    if s != [] {
      LoweredAt(s[..|s| - 1]);
    }
  }

  /** `s.replace(' ', '')` */
  function RemoveSpaces(s: string): (r: string)
    ensures ' ' !in r
    ensures |r| <= |s|
  {
    if s == [] then []
    else RemoveSpaces(s[..|s| - 1]) + (if s[|s| - 1] == ' ' then [] else [s[|s| - 1]])
  }

  /** Removing spaces keeps every other character and only those. */
  lemma {:induction false} RemoveSpacesKeeps(s: string)
    ensures forall c :: c in RemoveSpaces(s) <==> c in s && c != ' '
    ensures ' ' !in s ==> RemoveSpaces(s) == s
  {
    if s != [] {
      var before := s[..|s| - 1];
      RemoveSpacesKeeps(before);
      assert s == before + [s[|s| - 1]];
    }
  }

  /** `_clean(s)`: `s.lower().replace(' ', '')`. */
  function Clean(s: string): (r: string)
    ensures ' ' !in r && |r| <= |s|
  {
    RemoveSpaces(Lowered(s))
  }

  /** A normalised postcode: no space and no upper-case letter. */
  predicate IsClean(s: string) {
    forall i :: 0 <= i < |s| ==> s[i] != ' ' && !IsUpper(s[i])
  }

  /** The cleaned form is normalised and never longer than the raw form. */
  lemma CleanIsClean(s: string)
    ensures IsClean(Clean(s))
    ensures |Clean(s)| <= |s|
  {
    var l := Lowered(s);
    LoweredAt(s);
    RemoveSpacesKeeps(l);
    forall i | 0 <= i < |Clean(s)|
      ensures Clean(s)[i] != ' ' && !IsUpper(Clean(s)[i])
    {
      var c := Clean(s)[i];
      assert c in l;
    }
  }

  /** Cleaning leaves a string unchanged exactly when it is already normalised. */
  lemma CleanFixpoint(s: string)
    ensures Clean(s) == s <==> IsClean(s)
  {
    CleanIsClean(s);
    if IsClean(s) {
      LoweredAt(s);
      assert Lowered(s) == s;
      RemoveSpacesKeeps(s);
    }
  }

  /** `_clean(_clean(s)) == _clean(s)` */
  lemma CleanIdempotent(s: string)
    ensures Clean(Clean(s)) == Clean(s)
  {
    CleanIsClean(s);
    CleanFixpoint(Clean(s));
  }

  /** Removing the spaces of one more character keeps it unless it is a space. */
  lemma RemoveSpacesSnoc(s: string, c: char)
    ensures RemoveSpaces(s + [c]) == RemoveSpaces(s) + (if c == ' ' then [] else [c])
  {
    assert (s + [c])[..|s|] == s;
  }

  /** Cleaning one more character appends its cleaned form. */
  lemma CleanSnoc(s: string, c: char)
    ensures Clean(s + [c]) == Clean(s) + (if c == ' ' then [] else [Lower(c)])
  {
    LoweredSnoc(s, c);
    RemoveSpacesSnoc(Lowered(s), Lower(c));
  }

  /** Lower-casing a concatenation lower-cases each piece. */
  lemma LoweredAppend(s: string, t: string)
    ensures Lowered(s + t) == Lowered(s) + Lowered(t)
  {
    LoweredAt(s + t);
    LoweredAt(s);
    LoweredAt(t);
  }

  /** Removing the spaces of a concatenation removes those of each piece. */
  lemma {:induction false} RemoveSpacesAppend(s: string, t: string)
    ensures RemoveSpaces(s + t) == RemoveSpaces(s) + RemoveSpaces(t)
  {
    if t == [] {
      assert s + t == s;
    } else {
      var before, c := t[..|t| - 1], t[|t| - 1];
      var kept := if c == ' ' then [] else [c];
      assert t == before + [c];
      assert s + t == (s + before) + [c];
      calc {
        RemoveSpaces(s + t);
        { RemoveSpacesSnoc(s + before, c); }
        RemoveSpaces(s + before) + kept;
        { RemoveSpacesAppend(s, before); }
        RemoveSpaces(s) + RemoveSpaces(before) + kept;
        { RemoveSpacesSnoc(before, c); }
        RemoveSpaces(s) + RemoveSpaces(t);
      }
    }
  }

  /** Cleaning works piece by piece: the cleaned form of a concatenation is
      the concatenation of the cleaned pieces. */
  lemma CleanAppend(s: string, t: string)
    ensures Clean(s + t) == Clean(s) + Clean(t)
  {
    LoweredAppend(s, t);
    RemoveSpacesAppend(Lowered(s), Lowered(t));
  }

  /** The space between two halves of a postcode disappears. */
  lemma CleanAroundSpace(x: string, y: string)
    ensures Clean(x + " " + y) == Clean(x) + Clean(y)
  {
    CleanSnoc(x, ' ');
    CleanAppend(x + " ", y);
  }

  /** A space-free string cleans to its character-by-character lower-case form. */
  lemma CleanUnspaced(s: string, t: string)
    requires ' ' !in s && |t| == |s|
    requires forall i :: 0 <= i < |s| ==> t[i] == Lower(s[i])
    ensures Clean(s) == t
  {
    LoweredAt(s);
    assert Lowered(s) == t;
    assert ' ' !in t by {
      forall i | 0 <= i < |t| ensures t[i] != ' ' {
        assert s[i] != ' ';
      }
    }
    RemoveSpacesKeeps(t);
  }

  /** Lower-casing and removing spaces commute: an independent reference
      definition of `_clean` that removes the spaces first. */
  lemma {:induction false} CleanRemovesSpacesFirst(s: string)
    ensures Clean(s) == Lowered(RemoveSpaces(s))
  {
    if s != [] {
      var before, c := s[..|s| - 1], s[|s| - 1];
      assert s == before + [c];
      CleanSnoc(before, c);
      RemoveSpacesSnoc(before, c);
      if c == ' ' {
        assert Clean(s) == Clean(before);
        assert RemoveSpaces(s) == RemoveSpaces(before);
        CleanRemovesSpacesFirst(before);
      } else {
        calc {
          Clean(s);
          Clean(before) + [Lower(c)];
          { CleanRemovesSpacesFirst(before); }
          Lowered(RemoveSpaces(before)) + [Lower(c)];
          { LoweredSnoc(RemoveSpaces(before), c); }
          Lowered(RemoveSpaces(before) + [c]);
          Lowered(RemoveSpaces(s));
        }
      }
    }
  }

  /** Case and spacing do not matter: lower-casing or removing the spaces
      of a postcode first leaves its cleaned form unchanged, so "SW8 1HL",
      "sw8 1hl" and "SW81HL" all clean to the same key. */
  lemma CleanIgnoresCaseAndSpaces(s: string)
    ensures Clean(Lowered(s)) == Clean(s)
    ensures Clean(RemoveSpaces(s)) == Clean(s)
  {
    LoweredAt(s);
    LoweredAt(Lowered(s));
    assert Lowered(Lowered(s)) == Lowered(s);
    CleanRemovesSpacesFirst(s);
    RemoveSpacesKeeps(Clean(s));
  }
}
