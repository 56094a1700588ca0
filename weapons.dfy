/** `simplify_weapon` (utils.py): maps the free-text `Weapon` field to one of
    Gun, Blade or Other by scanning its comma-separated phrases in order. */
module Weapons {
  import opened Incidents
  import opened Text

  const GunTerms: seq<string> := ["gun", "firearm", "rifle", "shotgun"]
  const BladeTerms: seq<string> := ["knife", "cutting instrument", "sharp", "razor", "screwdriver"]

  /** `any(term in w for term in terms)`. */
  predicate ContainsAny(w: string, terms: seq<string>)
    decreases |terms|
  {
    terms != [] && (Contains(w, terms[0]) || ContainsAny(w, terms[1..]))
  }

  /** `ContainsAny` holds exactly when one of the terms occurs in `w`. */
  lemma {:induction false} ContainsAnyIff(w: string, terms: seq<string>)
    ensures ContainsAny(w, terms) <==> exists k :: 0 <= k < |terms| && Contains(w, terms[k])
    decreases |terms|
  {
    if terms != [] {
      ContainsAnyIff(w, terms[1..]);
      if k :| 0 <= k < |terms| && Contains(w, terms[k]) {
        if k > 0 {
          assert Contains(w, terms[1..][k - 1]);
        }
      }
      if k :| 0 <= k < |terms[1..]| && Contains(w, terms[1..][k]) {
        assert Contains(w, terms[k + 1]);
      }
    }
  }

  predicate HasGunTerm(w: string) {
    ContainsAny(w, GunTerms)
  }

  predicate HasBladeTerm(w: string) {
    ContainsAny(w, BladeTerms)
  }

  /** A phrase that decides the category: it holds a gun term or a blade term. */
  predicate Decisive(w: string) {
    HasGunTerm(w) || HasBladeTerm(w)
  }

  /** The category a decisive phrase gives: a gun term beats a blade term. */
  function Verdict(w: string): Category {
    if HasGunTerm(w) then Gun else if HasBladeTerm(w) then Blade else Other
  }

  /** `[w.strip() for w in pieces]`. */
  function StripAll(pieces: seq<string>): (r: seq<string>)
    ensures |r| == |pieces|
    ensures forall k :: 0 <= k < |r| ==> r[k] == Strip(pieces[k])
  {
    seq(|pieces|, k requires 0 <= k < |pieces| => Strip(pieces[k]))
  }

  /** The phrases of the weapon text: lower-cased, split on commas, stripped. */
  function Phrases(s: string): seq<string> {
    StripAll(Split(Lower(s), ','))
  }

  /** The `for` loop of `simplify_weapon`: the first decisive phrase gives the
      category, and without one the category is Other. */
  function FirstVerdict(phrases: seq<string>): Category
    decreases |phrases|
  {
    if phrases == [] then Other
    else if HasGunTerm(phrases[0]) then Gun
    else if HasBladeTerm(phrases[0]) then Blade
    else FirstVerdict(phrases[1..])
  }

  /** `simplify_weapon(weapon)`: anything that is not a string is Other, and
      a string is Other unless one of its phrases names a weapon. */
  function SimplifyWeapon(weapon: Value): (r: Category)
    ensures !weapon.Str? ==> r == Other
    ensures r != Other ==> weapon.Str? && exists k :: 0 <= k < |Phrases(weapon.s)| && Decisive(Phrases(weapon.s)[k])
  {
    match weapon
    case Str(s) =>
      FirstVerdictSpec(Phrases(s));
      FirstVerdict(Phrases(s))
    case _ => Other
  }

  /** `k` is the position of the first decisive phrase. */
  predicate FirstDecisiveAt(phrases: seq<string>, k: int) {
    0 <= k < |phrases| && Decisive(phrases[k])
    && forall j :: 0 <= j < k ==> !Decisive(phrases[j])
  }

  /** The scan's result, stated without the scan: the verdict of the first
      decisive phrase, or Other when no phrase is decisive. */
  lemma {:induction false} FirstVerdictSpec(phrases: seq<string>)
    ensures (forall j :: 0 <= j < |phrases| ==> !Decisive(phrases[j])) <==> FirstVerdict(phrases) == Other
    ensures forall k :: FirstDecisiveAt(phrases, k) ==> FirstVerdict(phrases) == Verdict(phrases[k])
    decreases |phrases|
  {
    if phrases != [] {
      FirstVerdictSpec(phrases[1..]);
      if !Decisive(phrases[0]) {
        forall k | FirstDecisiveAt(phrases, k)
          ensures FirstDecisiveAt(phrases[1..], k - 1)
        {
        }
        if forall j :: 0 <= j < |phrases[1..]| ==> !Decisive(phrases[1..][j]) {
          assert forall j :: 0 <= j < |phrases| ==> !Decisive(phrases[j]) by {
            forall j | 0 <= j < |phrases|
              ensures !Decisive(phrases[j])
            {
              if j > 0 {
                assert phrases[j] == phrases[1..][j - 1];
              }
            }
          }
        }
      } else {
        forall k | FirstDecisiveAt(phrases, k)
          ensures k == 0
        {
        }
      }
    }
  }

  /** A string's category, stated without the scan. */
  lemma SimplifyWeaponSpec(s: string)
    ensures (forall j :: 0 <= j < |Phrases(s)| ==> !Decisive(Phrases(s)[j])) <==> SimplifyWeapon(Str(s)) == Other
    ensures forall k :: FirstDecisiveAt(Phrases(s), k) ==> SimplifyWeapon(Str(s)) == Verdict(Phrases(s)[k])
  {
    FirstVerdictSpec(Phrases(s));
  }

  /** The result is decided by the text alone, whatever its letter case. */
  lemma CaseInsensitive(s: string)
    ensures SimplifyWeapon(Str(Lower(s))) == SimplifyWeapon(Str(s))
  {
    LowerIdempotent(s);
  }

  /** No search term starts or ends with whitespace. */
  lemma TermsAreTrimmed()
    ensures forall k :: 0 <= k < |GunTerms| ==> Trimmed(GunTerms[k])
    ensures forall k :: 0 <= k < |BladeTerms| ==> Trimmed(BladeTerms[k])
  {
    assert Trimmed("gun") && Trimmed("firearm") && Trimmed("rifle") && Trimmed("shotgun");
    assert Trimmed("knife") && Trimmed("cutting instrument") && Trimmed("sharp");
    assert Trimmed("razor") && Trimmed("screwdriver");
  }

  lemma {:induction false} ContainsAnyStrip(w: string, terms: seq<string>)
    requires forall k :: 0 <= k < |terms| ==> Trimmed(terms[k])
    ensures ContainsAny(Strip(w), terms) <==> ContainsAny(w, terms)
    decreases |terms|
  {
    if terms != [] {
      ContainsStrip(w, terms[0]);
      assert forall k :: 0 <= k < |terms[1..]| ==> Trimmed(terms[1..][k]) by {
        assert forall k :: 0 <= k < |terms[1..]| ==> terms[1..][k] == terms[k + 1];
      }
      ContainsAnyStrip(w, terms[1..]);
    }
  }

  lemma {:induction false} FirstVerdictStrip(pieces: seq<string>)
    ensures FirstVerdict(StripAll(pieces)) == FirstVerdict(pieces)
    decreases |pieces|
  {
    if pieces != [] {
      TermsAreTrimmed();
      ContainsAnyStrip(pieces[0], GunTerms);
      ContainsAnyStrip(pieces[0], BladeTerms);
      assert StripAll(pieces)[1..] == StripAll(pieces[1..]);
      FirstVerdictStrip(pieces[1..]);
    }
  }

  /** Stripping the phrases never changes the category: no search term
      starts or ends with whitespace. */
  lemma StripDoesNotMatter(s: string)
    ensures SimplifyWeapon(Str(s)) == FirstVerdict(Split(Lower(s), ','))
  {
    FirstVerdictStrip(Split(Lower(s), ','));
  }
}
