/** Occupation-description vocabularies (CBO, the Brazilian occupation
    classification): a description matches a vocabulary when every keyword
    occurs in it, ignoring case. */
module CboChecker {
  import opened Text

  /** `term.upper() in description.upper()` */
  ghost predicate HasTerm(description: string, term: string)
  {
    exists i :: OccursAt(Upper(description), Upper(term), i)
  }

  /** `contains_terms`: all of the terms occur (an empty list always matches). */
  function ContainsTerms(description: string, terms: seq<string>): (b: bool)
    ensures b <==> forall k :: 0 <= k < |terms| ==> HasTerm(description, terms[k])
  {
    if |terms| == 0 then true
    else Contains(Upper(description), Upper(terms[0])) && ContainsTerms(description, terms[1..])
  }

  /** `contains_clinico_terms` */
  function Clinico(description: string): bool
  {
    ContainsTerms(description, ["MEDICO", "CLINICO"]) || ContainsTerms(description, ["MEDICOS", "CLINICO"])
  }

  /** `contains_generalista_terms` */
  function Generalista(description: string): bool
  {
    ContainsTerms(description, ["MEDICO", "GENERALISTA"])
  }

  /** `contains_familia_terms` */
  function Familia(description: string): bool
  {
    ContainsTerms(description, ["MEDICO", "FAMILIA"])
  }

  lemma TwoTerms(description: string, first: string, second: string)
    ensures ContainsTerms(description, [first, second]) <==> HasTerm(description, first) && HasTerm(description, second)
  {
    var terms := [first, second];
    if HasTerm(description, first) && HasTerm(description, second) {
      assert forall k :: 0 <= k < |terms| ==> HasTerm(description, terms[k]) by {
        forall k | 0 <= k < |terms| ensures HasTerm(description, terms[k]) {
          if k == 0 { assert terms[k] == first; } else { assert terms[k] == second; }
        }
      }
    }
    if ContainsTerms(description, terms) {
      assert HasTerm(description, terms[0]) && HasTerm(description, terms[1]);
    }
  }

  /** Wherever "MEDICOS" occurs, "MEDICO" occurs too. */
  lemma PluralImpliesSingular(description: string)
    ensures HasTerm(description, "MEDICOS") ==> HasTerm(description, "MEDICO")
  {
    if HasTerm(description, "MEDICOS") {
      var i :| OccursAt(Upper(description), Upper("MEDICOS"), i);
      UpperOfUpper("MEDICOS");
      UpperOfUpper("MEDICO");
      PrefixOccurs(Upper(description), "MEDICOS", "MEDICO", i);
    }
  }

  /** The "MEDICOS" alternative adds nothing, so the clinician check is a
      plain two-word check. */
  lemma ClinicoIsMedicoAndClinico(description: string)
    ensures Clinico(description) <==> HasTerm(description, "MEDICO") && HasTerm(description, "CLINICO")
  {
    TwoTerms(description, "MEDICO", "CLINICO");
    TwoTerms(description, "MEDICOS", "CLINICO");
    PluralImpliesSingular(description);
  }

  /** Matching ignores case: upper-casing the description first changes nothing. */
  lemma ContainsTermsIgnoresCase(description: string, terms: seq<string>)
    ensures ContainsTerms(Upper(description), terms) == ContainsTerms(description, terms)
  {
    UpperIdempotent(description);
  }

  /** Text with no lower-case letter is its own upper case. */
  lemma UpperOfUpper(s: string)
    requires forall i :: 0 <= i < |s| ==> !('a' <= s[i] <= 'z')
    ensures Upper(s) == s
  {
  }

  /** A term with a letter the description lacks cannot occur in it. */
  lemma MissingLetter(description: string, term: string, c: char)
    requires forall j :: 0 <= j < |description| ==> !('a' <= description[j] <= 'z')
    requires forall j :: 0 <= j < |term| ==> !('a' <= term[j] <= 'z')
    requires c in term && c !in description
    ensures !HasTerm(description, term)
  {
    UpperOfUpper(description);
    UpperOfUpper(term);
    var k :| 0 <= k < |term| && term[k] == c;
    forall i
      ensures !OccursAt(description, term, i)
    {
      if 0 <= i && i + |term| <= |description| {
        assert description[i..i + |term|][k] == description[i + k];
        assert description[i + k] != c;
      }
    }
  }

  /** An upper-case term found at a known place occurs, whatever the case of the rest. */
  lemma FoundAt(description: string, term: string, i: nat)
    requires forall j :: 0 <= j < |term| ==> !('a' <= term[j] <= 'z')
    requires i + |term| <= |description| && description[i..i + |term|] == term
    ensures HasTerm(description, term)
  {
    UpperOfUpper(term);
    var u := Upper(description);
    forall j | 0 <= j < |term|
      ensures u[i..i + |term|][j] == term[j]
    {
      assert description[i..i + |term|][j] == description[i + j];
    }
    assert OccursAt(u, Upper(term), i);
  }

  // The examples below take the description as a parameter pinned by a
  // `requires`, which keeps the verifier from unfolding the matcher on
  // literal text.

  /** "MEDICO CLINICO" is a clinician description. */
  lemma MedicoClinicoIsClinico(d: string)
    requires d == "MEDICO CLINICO"
    ensures Clinico(d)
  {
    FoundAt(d, "MEDICO", 0);
    FoundAt(d, "CLINICO", 7);
    ClinicoIsMedicoAndClinico(d);
  }

  /** "MEDICO CLINICO" is neither a generalist nor a family-medicine description. */
  lemma MedicoClinicoIsNotGeneralistaNorFamilia(d: string)
    requires d == "MEDICO CLINICO"
    ensures !Generalista(d) && !Familia(d)
  {
    assert !HasTerm(d, "GENERALISTA") by {
      MissingLetter(d, "GENERALISTA", 'G');
    }
    assert !HasTerm(d, "FAMILIA") by {
      MissingLetter(d, "FAMILIA", 'F');
    }
    TwoTerms(d, "MEDICO", "GENERALISTA");
    TwoTerms(d, "MEDICO", "FAMILIA");
  }

  /** The plural "MEDICOS CLINICO" is a clinician description. */
  lemma PluralClinicoExample(d: string)
    requires d == "MEDICOS CLINICO"
    ensures Clinico(d)
  {
    assert HasTerm(d, "MEDICO") && HasTerm(d, "CLINICO") by {
      FoundAt(d, "MEDICO", 0);
      FoundAt(d, "CLINICO", 8);
    }
    ClinicoIsMedicoAndClinico(d);
  }

  /** "ENFERMEIRO" (nurse) is not a clinician description. */
  lemma NurseIsNotClinico(d: string)
    requires d == "ENFERMEIRO"
    ensures !Clinico(d)
  {
    assert !HasTerm(d, "MEDICO") by {
      MissingLetter(d, "MEDICO", 'C');
    }
    ClinicoIsMedicoAndClinico(d);
  }

  /** "MEDICO GENERALISTA" is a generalist description. */
  lemma GeneralistaExample(d: string)
    requires d == "MEDICO GENERALISTA"
    ensures Generalista(d)
  {
    assert HasTerm(d, "MEDICO") && HasTerm(d, "GENERALISTA") by {
      FoundAt(d, "MEDICO", 0);
      FoundAt(d, "GENERALISTA", 7);
    }
    TwoTerms(d, "MEDICO", "GENERALISTA");
  }

  /** The family-health-strategy doctor is a family-medicine description. */
  lemma FamiliaExample(d: string)
    requires d == "MEDICO" + " DA ESTRATEGIA DE SAUDE DA " + "FAMILIA"
    ensures Familia(d)
  {
    assert HasTerm(d, "MEDICO") && HasTerm(d, "FAMILIA") by {
      FoundAt(d, "MEDICO", 0);
      FoundAt(d, "FAMILIA", 33);
    }
    TwoTerms(d, "MEDICO", "FAMILIA");
  }

  /** A nurse registered with family medicine matches none of the vocabularies. */
  lemma NurseMatchesNothing(d: string)
    requires d == "ENFERMEIRO DA FAMILIA"
    ensures !Familia(d) && !Clinico(d) && !Generalista(d)
  {
    assert !HasTerm(d, "MEDICO") by {
      MissingLetter(d, "MEDICO", 'C');
    }
    TwoTerms(d, "MEDICO", "FAMILIA");
    TwoTerms(d, "MEDICO", "GENERALISTA");
    ClinicoIsMedicoAndClinico(d);
  }
}
