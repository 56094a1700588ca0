/** The cases the repository's unit tests check for `simplify_weapon`
    (tests/test_utils.py), plus the two orderings of a mixed description.
    Each example is split in two: how the text splits into phrases, and which
    terms each phrase holds.
    Several lemmas take the example's text or number as a parameter with a
    `requires` fixing its value (`requires s == "gun"`) rather than writing the
    literal into the `ensures`: with a literal argument the verifier unfolds
    the recursive functions on the constant eagerly, which makes the proofs
    far more expensive. */
module WeaponExamples {
  import opened Incidents
  import opened Text
  import opened Weapons

  /** A lower-case text that joins back from comma-free `pieces` is
      categorised by the unstripped pieces. */
  lemma Categorise(s: string, pieces: seq<string>)
    requires forall i :: 0 <= i < |s| ==> !('A' <= s[i] <= 'Z')
    requires |pieces| >= 1 && Join(pieces, ',') == s
    requires forall k :: 0 <= k < |pieces| ==> ',' !in pieces[k]
    ensures SimplifyWeapon(Str(s)) == FirstVerdict(pieces)
  {
    LowerOfLowerCase(s);
    SplitUnique(s, ',', pieces);
    StripDoesNotMatter(s);
  }

  /** `w` holds none of `terms`: each term has a character (`witnesses[k]`)
      that `w` lacks. */
  lemma NoTerm(w: string, terms: seq<string>, witnesses: string)
    requires |witnesses| == |terms|
    requires forall k :: 0 <= k < |terms| ==> witnesses[k] in terms[k] && witnesses[k] !in w
    ensures !ContainsAny(w, terms)
  {
    ContainsAnyIff(w, terms);
    forall k | 0 <= k < |terms|
      ensures !Contains(w, terms[k])
    {
      MissingChar(w, terms[k], witnesses[k]);
    }
  }

  /** `w` holds `terms[k]`, found at position `i`. */
  lemma SomeTerm(w: string, terms: seq<string>, k: int, i: int)
    requires 0 <= k < |terms| && OccursAt(w, terms[k], i)
    ensures ContainsAny(w, terms)
  {
    ContainsIff(w, terms[k]);
    ContainsAnyIff(w, terms);
  }

  lemma GunPhrase(w: string)
    requires w == "gun"
    ensures HasGunTerm(w)
  {
    SomeTerm(w, GunTerms, 0, 0);
  }

  lemma KnifeNoGun(w: string)
    requires w == "knife"
    ensures !HasGunTerm(w)
  {
    NoTerm(w, GunTerms, "grrs");
  }

  lemma KnifeBlade(w: string)
    requires w == "knife"
    ensures HasBladeTerm(w)
  {
    SomeTerm(w, BladeTerms, 0, 0);
  }

  lemma Gun(s: string)
    requires s == "gun"
    ensures SimplifyWeapon(Str(s)) == Incidents.Gun
  {
    Categorise(s, [s]);
    GunPhrase(s);
  }

  lemma FirearmPistol(s: string)
    requires s == "firearm, pistol"
    ensures SimplifyWeapon(Str(s)) == Incidents.Gun
  {
    var first := "firearm";
    assert Join([first, " pistol"], ',') == s;
    Categorise(s, [first, " pistol"]);
    SomeTerm(first, GunTerms, 1, 0);
  }

  lemma ShotgunPhrase(w: string)
    requires w == "shotgun"
    ensures HasGunTerm(w)
  {
    assert GunTerms[3] == w;
    SomeTerm(w, GunTerms, 3, 0);
  }

  lemma Shotgun(s: string)
    requires s == "shotgun"
    ensures SimplifyWeapon(Str(s)) == Incidents.Gun
  {
    Categorise(s, [s]);
    ShotgunPhrase(s);
  }

  lemma Knife(s: string)
    requires s == "knife"
    ensures SimplifyWeapon(Str(s)) == Blade
  {
    Categorise(s, [s]);
    KnifeNoGun(s);
    KnifeBlade(s);
  }

  lemma RazorBladeNoGun(w: string)
    requires w == "razor blade"
    ensures !HasGunTerm(w)
  {
    NoTerm(w, GunTerms, "gffs");
  }

  lemma RazorBladeBlade(w: string)
    requires w == "razor blade"
    ensures HasBladeTerm(w)
  {
    SomeTerm(w, BladeTerms, 3, 0);
  }

  lemma RazorBlade(s: string)
    requires s == "razor blade"
    ensures SimplifyWeapon(Str(s)) == Blade
  {
    Categorise(s, [s]);
    RazorBladeNoGun(s);
    RazorBladeBlade(s);
  }

  /** "gun" does not occur in "cutting instrument": its only 'g' is followed
      by a space. */
  lemma NoGunInCuttingInstrument(w: string)
    requires w == "cutting instrument"
    ensures !Contains(w, "gun")
  {
    ContainsIff(w, "gun");
    forall i | 0 <= i <= |w| - 3
      ensures !OccursAt(w, "gun", i)
    {
      if i == 6 {
        assert w[i..i + 3][1] == w[7] == ' ';
      } else {
        assert w[i..i + 3][0] == w[i] != 'g';
      }
    }
  }

  lemma CuttingInstrumentNoGun(w: string)
    requires w == "cutting instrument"
    ensures !HasGunTerm(w)
  {
    NoGunInCuttingInstrument(w);
    NoOtherGunTermInCuttingInstrument(w);
  }

  lemma NoOtherGunTermInCuttingInstrument(w: string)
    requires w == "cutting instrument"
    ensures !ContainsAny(w, GunTerms[1..])
  {
    NoTerm(w, GunTerms[1..], "ffh");
  }

  lemma CuttingInstrumentBlade(w: string)
    requires w == BladeTerms[1]
    ensures HasBladeTerm(w)
  {
    assert OccursAt(w, BladeTerms[1], 0);
    SomeTerm(w, BladeTerms, 1, 0);
  }

  lemma CuttingInstrumentSharpObject(s: string)
    requires s == "cutting instrument, sharp object"
    ensures SimplifyWeapon(Str(s)) == Blade
  {
    var first := "cutting instrument";
    CuttingInstrumentSharpObjectPieces(s, first, " sharp object");
    Categorise(s, [first, " sharp object"]);
    CuttingInstrumentNoGun(first);
    CuttingInstrumentBlade(first);
  }

  lemma CuttingInstrumentSharpObjectPieces(s: string, first: string, second: string)
    requires s == "cutting instrument, sharp object"
    requires first == "cutting instrument" && second == " sharp object"
    ensures forall i :: 0 <= i < |s| ==> !('A' <= s[i] <= 'Z')
    ensures Join([first, second], ',') == s
    ensures ',' !in first && ',' !in second
  {
    assert Join([first, second], ',') == first + [','] + second;
  }

  lemma HammerNoGun(w: string)
    requires w == "hammer"
    ensures !HasGunTerm(w)
  {
    NoTerm(w, GunTerms, "gfis");
  }

  lemma HammerNoBlade(w: string)
    requires w == "hammer"
    ensures !HasBladeTerm(w)
  {
    NoTerm(w, BladeTerms, "kcszs");
  }

  lemma Hammer(s: string)
    requires s == "hammer"
    ensures SimplifyWeapon(Str(s)) == Other
  {
    Categorise(s, [s]);
    HammerNoGun(s);
    HammerNoBlade(s);
  }

  /** Non-strings (`None`, `123`) are Other. */
  lemma NotAString()
    ensures SimplifyWeapon(Null) == Other
    ensures SimplifyWeapon(Int(123)) == Other
  {
  }

  /** The first decisive phrase wins even when a later phrase names a gun. */
  lemma KnifeThenGun(s: string)
    requires s == "knife, gun"
    ensures SimplifyWeapon(Str(s)) == Blade
  {
    var first := "knife";
    assert Join([first, " gun"], ',') == s;
    Categorise(s, [first, " gun"]);
    KnifeNoGun(first);
    KnifeBlade(first);
  }

  lemma GunThenKnife(s: string)
    requires s == "gun, knife"
    ensures SimplifyWeapon(Str(s)) == Incidents.Gun
  {
    var first := "gun";
    assert Join([first, " knife"], ',') == s;
    Categorise(s, [first, " knife"]);
    GunPhrase(first);
  }

  /** Letter case does not matter. */
  lemma UpperCaseGun(s: string)
    requires s == "GUN"
    ensures SimplifyWeapon(Str(s)) == Incidents.Gun
  {
    assert Lower(s) == "gun";
    CaseInsensitive(s);
    Gun(Lower(s));
  }
}
