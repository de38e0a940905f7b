/** CWE families (backend/services/cwe.py): neighbouring CWEs share one canonical member. */
module Cwe {
  import opened Prelude

  /** A CWE label. `Numbered(89)` stands for the text "CWE-89"; any other text is `Named`. */
  datatype Cwe = Numbered(n: nat) | Named(text: string)

  /** Python's truth value of an optional label: `None` and the empty text are false. */
  predicate Present(cwe: Option<Cwe>) {
    cwe.Some? && cwe.value != Named("")
  }

  /** The first element of the family that contains CWE number `n`; a number in no family is its own family. */
  function Canonical(n: nat): nat {
    if n == 564 then 89
    else if n == 77 || n == 88 then 78
    else if n == 80 || n == 116 then 79
    else if n == 23 || n == 36 || n == 73 || n == 99 then 22
    else if n == 259 || n == 321 then 798
    else if n == 328 || n == 916 || n == 759 || n == 760 || n == 326 || n == 1240 then 327
    else if n == 862 || n == 863 || n == 284 || n == 285 || n == 306 || n == 287 || n == 425 then 639
    else if n == 937 || n == 1035 || n == 1395 then 1104
    else if n == 250 || n == 269 || n == 732 || n == 1188 then 16
    else if n == 338 || n == 331 || n == 335 then 330
    else if n == 1336 || n == 95 || n == 96 || n == 74 || n == 917 then 94
    else n
  }

  function Family(cwe: Option<Cwe>): Option<Cwe> {
    if !Present(cwe) then None
    else if cwe.value.Numbered? then Some(Numbered(Canonical(cwe.value.n)))
    else cwe
  }

  /** The families as they are listed, the canonical member first. */
  const FAMILIES: seq<seq<nat>> :=
    [[89, 564], [78, 77, 88], [79, 80, 116], [22, 23, 36, 73, 99], [918], [798, 259, 321],
     [327, 328, 916, 759, 760, 326, 1240], [502], [639, 862, 863, 284, 285, 306, 287, 425], [1104, 937, 1035, 1395],
     [16, 250, 269, 732, 1188], [330, 338, 331, 335], [94, 1336, 95, 96, 74, 917]]

  predicate Listed(n: nat) {
    exists i :: 0 <= i < |FAMILIES| && n in FAMILIES[i]
  }

  /** Two numbers are of one family exactly if they are equal or listed together. */
  predicate Relatives(m: nat, n: nat) {
    m == n || exists i :: 0 <= i < |FAMILIES| && m in FAMILIES[i] && n in FAMILIES[i]
  }

  lemma {:induction false} CanonicalIsFirst(n: nat, i: nat)
    requires i < |FAMILIES| && n in FAMILIES[i]
    ensures Canonical(n) == FAMILIES[i][0] && FAMILIES[i][0] in FAMILIES[i]
  {
  }

  lemma {:induction false} UnlistedIsItself(n: nat)
    requires !Listed(n)
    ensures Canonical(n) == n
  {
    forall i | 0 <= i < |FAMILIES| ensures n !in FAMILIES[i] {
    }
    assert n !in FAMILIES[0] && n !in FAMILIES[1] && n !in FAMILIES[2] && n !in FAMILIES[3] && n !in FAMILIES[5];
    assert n !in FAMILIES[6] && n !in FAMILIES[8] && n !in FAMILIES[9] && n !in FAMILIES[10];
    assert n !in FAMILIES[11] && n !in FAMILIES[12];
  }

  lemma {:induction false} FirstsDiffer(i: nat, j: nat)
    requires i < |FAMILIES| && j < |FAMILIES| && FAMILIES[i][0] == FAMILIES[j][0]
    ensures i == j
  {
  }

  lemma {:induction false} FamilyExactly(m: nat, n: nat)
    ensures Family(Some(Numbered(m))) == Family(Some(Numbered(n))) <==> Relatives(m, n)
    ensures Family(Some(Numbered(m))) != None && Family(None) == None && Family(Some(Named(""))) == None
  {
    if Listed(m) {
      var i :| 0 <= i < |FAMILIES| && m in FAMILIES[i];
      CanonicalIsFirst(m, i);
      if Listed(n) {
        var j :| 0 <= j < |FAMILIES| && n in FAMILIES[j];
        CanonicalIsFirst(n, j);
        if Canonical(m) == Canonical(n) {
          FirstsDiffer(i, j);
        }
        forall k | 0 <= k < |FAMILIES| && m in FAMILIES[k] && n in FAMILIES[k] ensures Canonical(m) == Canonical(n) {
          CanonicalIsFirst(m, k);
          CanonicalIsFirst(n, k);
        }
      } else {
        UnlistedIsItself(n);
        assert Listed(FAMILIES[i][0]);
      }
    } else {
      UnlistedIsItself(m);
      if Listed(n) {
        var j :| 0 <= j < |FAMILIES| && n in FAMILIES[j];
        CanonicalIsFirst(n, j);
        assert Listed(FAMILIES[j][0]);
      } else {
        UnlistedIsItself(n);
      }
    }
  }

  /** A class of the benchmark: one of the labelled families, an unlabelled family, or unknown. */
  datatype Class = Labelled(family: nat) | Unlabelled(family_: Cwe) | Unknown

  function ClassOf(cwe: Option<Cwe>): Class {
    match Family(cwe)
    case None => Unknown
    case Some(Numbered(n)) =>
      if n in {89, 79, 78, 22, 918, 798, 327, 502, 639, 1104, 16, 330, 94} then Labelled(n)
      else Unlabelled(Numbered(n))
    case Some(Named(text)) => Unlabelled(Named(text))
  }
}
