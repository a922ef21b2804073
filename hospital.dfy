/** The hospital console: a fixed list of waiting patients and available
    donors, the patient search (free text plus an organ selector), the organ
    selector's options, the per-patient donor compatibility lookup, and the
    two-patient matching preview. Everything here is derived from the two
    fixed lists and the two inputs `query` and `filterOrgan`. */
module Hospital {
  import opened Seqs
  import opened Text

  datatype Urgency = Critical | High | Medium | Low

  datatype Patient = Patient(id: string, name: string, organ: string, urgency: Urgency,
                             blood: string, location: string)

  datatype DonorRecord = DonorRecord(id: string, name: string, organs: seq<string>, blood: string,
                                     location: string)

  const MockPatients: seq<Patient> := [
    Patient("P-101", "Arjun Mehta", "Heart", Critical, "O+", "Mumbai"),
    Patient("P-102", "Mia Chen", "Liver", High, "A-", "Singapore"),
    Patient("P-103", "Leo Garcia", "Kidneys", Medium, "B+", "Manila"),
    Patient("P-104", "Sara Khan", "Corneas", High, "AB+", "Dubai")
  ]

  const MockDonors: seq<DonorRecord> := [
    DonorRecord("D-2201", "Riya Patel", ["Heart", "Corneas"], "O+", "Mumbai"),
    DonorRecord("D-2202", "David Park", ["Kidneys"], "B+", "Seoul"),
    DonorRecord("D-2203", "Luis Diaz", ["Liver"], "A-", "Singapore")
  ]

  /** The organ selector's wildcard entry, also its initial value. */
  const AllOrgans: string := "All"

  /** The fields the free-text search looks at (urgency is not searched). */
  function SearchFields(p: Patient): seq<string>
  {
    [p.name, p.id, p.organ, p.location, p.blood]
  }

  /** Some searched field, lowercased, contains the lowercased query. */
  predicate MatchesQuery(p: Patient, query: string)
    ensures MatchesQuery(p, query) ==> exists v :: v in SearchFields(p) && |query| <= |v|
  {
    exists v | v in SearchFields(p) :: Includes(ToLower(v), ToLower(query))
  }

  /** The organ selector is the wildcard or names the patient's organ. */
  predicate MatchesOrgan(p: Patient, filterOrgan: string)
  {
    filterOrgan == AllOrgans || p.organ == filterOrgan
  }

  /** The patient table: the patients passing both tests, in list order. */
  function FilteredPatients(patients: seq<Patient>, query: string, filterOrgan: string): (r: seq<Patient>)
    ensures |r| <= |patients|
  {
    Filter(patients, p => MatchesQuery(p, query) && MatchesOrgan(p, filterOrgan))
  }

  /** The table is an order-preserving selection of the patient list that holds
      exactly the patients matching both the query and the organ selector. */
  lemma FilteredPatientsSpec(patients: seq<Patient>, query: string, filterOrgan: string)
    ensures IsSubsequence(FilteredPatients(patients, query, filterOrgan), patients)
    ensures |FilteredPatients(patients, query, filterOrgan)| <= |patients|
    ensures forall p :: p in FilteredPatients(patients, query, filterOrgan) ==>
              && p in patients
              && (filterOrgan == AllOrgans || p.organ == filterOrgan)
              && exists v :: v in [p.name, p.id, p.organ, p.location, p.blood] &&
                             Includes(ToLower(v), ToLower(query))
    ensures forall p :: p in patients && MatchesQuery(p, query) && MatchesOrgan(p, filterOrgan) ==>
              p in FilteredPatients(patients, query, filterOrgan)
  {
    var keep := p => MatchesQuery(p, query) && MatchesOrgan(p, filterOrgan);
    FilterIsSubsequence(patients, keep);
    FilterMembership(patients, keep);
  }

  /** With the fixed data the table never has more than four rows. */
  lemma FilteredMockPatientsAtMostFour(query: string, filterOrgan: string)
    ensures |FilteredPatients(MockPatients, query, filterOrgan)| <= 4
    ensures IsSubsequence(FilteredPatients(MockPatients, query, filterOrgan), MockPatients)
  {
    FilteredPatientsSpec(MockPatients, query, filterOrgan);
  }

  /** The initial inputs (empty query, wildcard organ) show every patient, in order. */
  lemma {:induction false} EmptySearchShowsAll(patients: seq<Patient>)
    ensures FilteredPatients(patients, "", AllOrgans) == patients
  {
    forall p | p in patients
      ensures MatchesQuery(p, "") && MatchesOrgan(p, AllOrgans)
    {
      EmptyIncluded(ToLower(p.name));
      assert ToLower("") == "";
      assert p.name in SearchFields(p);
    }
    FilterKeepsAll(patients, p => MatchesQuery(p, "") && MatchesOrgan(p, AllOrgans));
  }

  /** Searching "mumbai" across all organs finds only P-101 (Arjun Mehta). */
  lemma MumbaiSearch()
    ensures FilteredPatients(MockPatients, "mumbai", AllOrgans) == [MockPatients[0]]
    ensures MockPatients[0].id == "P-101"
  {
    var ps := MockPatients;
    MumbaiMatchesArjun();
    MumbaiMissesOthers();
    FilterOfFour(ps[0], ps[1], ps[2], ps[3], p => MatchesQuery(p, "mumbai") && MatchesOrgan(p, AllOrgans));
  }

  lemma MumbaiMatchesArjun()
    ensures MatchesQuery(MockPatients[0], "mumbai")
  {
    var q := "mumbai";
    var p := MockPatients[0];
    assert ToLower(q) == q;
    assert ToLower(p.location) == q;
    assert OccursAt(q, q, 0);
    assert p.location in SearchFields(p);
  }

  lemma MumbaiMissesOthers()
    ensures !MatchesQuery(MockPatients[1], "mumbai")
    ensures !MatchesQuery(MockPatients[2], "mumbai")
    ensures !MatchesQuery(MockPatients[3], "mumbai")
  {
    MumbaiMissesMia();
    MumbaiMissesLeo();
    MumbaiMissesSara();
  }

  lemma MumbaiMissesMia()
    ensures !MatchesQuery(MockPatients[1], "mumbai")
  {
    assert ToLower("mumbai") == "mumbai";
    QueryMissesPatient(MockPatients[1], "mumbai", 'b');
  }

  lemma MumbaiMissesLeo()
    ensures !MatchesQuery(MockPatients[2], "mumbai")
  {
    assert ToLower("mumbai") == "mumbai";
    QueryMissesPatient(MockPatients[2], "mumbai", 'u');
  }

  lemma MumbaiMissesSara()
    ensures !MatchesQuery(MockPatients[3], "mumbai")
  {
    assert ToLower("mumbai") == "mumbai";
    QueryMissesPatient(MockPatients[3], "mumbai", 'm');
  }

  /** A lowercase query letter that no searched field holds, in either case,
      makes the search miss the patient. */
  lemma QueryMissesPatient(p: Patient, query: string, c: char)
    requires 'a' <= c <= 'z' && c in ToLower(query)
    requires forall v :: v in SearchFields(p) ==> c !in v && (c as int - 32) as char !in v
    ensures !MatchesQuery(p, query)
  {
    forall v | v in SearchFields(p) ensures !Includes(ToLower(v), ToLower(query)) {
      NotIncludedForMissingLetter(v, ToLower(query), c);
    }
  }

  /** Selecting "Liver" with an empty query finds only P-102 (Mia Chen). */
  lemma LiverFilter()
    ensures FilteredPatients(MockPatients, "", "Liver") == [MockPatients[1]]
    ensures MockPatients[1].id == "P-102"
  {
    var ps := MockPatients;
    assert ToLower("") == "";
    EmptyIncluded(ToLower(ps[1].name));
    assert ps[1].name in SearchFields(ps[1]);
    FilterOfFour(ps[0], ps[1], ps[2], ps[3], p => MatchesQuery(p, "") && MatchesOrgan(p, "Liver"));
  }

  /** A donor is compatible with a patient when the blood types are the same
      string and the donor offers the patient's organ. */
  predicate Compatible(d: DonorRecord, patient: Patient)
  {
    d.blood == patient.blood && patient.organ in d.organs
  }

  /** The donors listed under a previewed patient. */
  function CompatibleDonors(patient: Patient, donors: seq<DonorRecord>): (r: seq<DonorRecord>)
    ensures |r| <= |donors|
  {
    Filter(donors, d => Compatible(d, patient))
  }

  /** The lookup returns, in donor-list order, exactly the donors with the
      patient's blood type that offer the patient's organ. */
  lemma CompatibleDonorsSpec(patient: Patient, donors: seq<DonorRecord>)
    ensures IsSubsequence(CompatibleDonors(patient, donors), donors)
    ensures forall d :: d in CompatibleDonors(patient, donors) ==>
              d in donors && d.blood == patient.blood && patient.organ in d.organs
    ensures forall d :: d in donors && d.blood == patient.blood && patient.organ in d.organs ==>
              d in CompatibleDonors(patient, donors)
  {
    FilterIsSubsequence(donors, d => Compatible(d, patient));
    FilterMembership(donors, d => Compatible(d, patient));
  }

  /** For P-101 (Heart, O+) the only compatible donor is D-2201 (Riya Patel). */
  lemma ArjunMatchesRiya()
    ensures CompatibleDonors(MockPatients[0], MockDonors) == [MockDonors[0]]
    ensures MockDonors[0].id == "D-2201"
  {
    var ds := MockDonors;
    FilterOfThree(ds[0], ds[1], ds[2], d => Compatible(d, MockPatients[0]));
  }

  /** The organ of every patient, in list order. */
  function PatientOrgans(patients: seq<Patient>): (r: seq<string>)
    ensures |r| == |patients|
    ensures forall i :: 0 <= i < |patients| ==> r[i] == patients[i].organ
  {
    seq(|patients|, i requires 0 <= i < |patients| => patients[i].organ)
  }

  /** The organ selector: the wildcard, then each patient organ once, in
      order of first appearance. */
  function OrganOptions(patients: seq<Patient>): (r: seq<string>)
    ensures |r| >= 1 && r[0] == AllOrgans
    ensures |r| <= |patients| + 1
  {
    [AllOrgans] + Distinct(PatientOrgans(patients))
  }

  /** The selector starts with the wildcard and then offers every patient
      organ and nothing else. */
  lemma OrganOptionsContents(patients: seq<Patient>)
    ensures OrganOptions(patients)[0] == AllOrgans
    ensures forall p :: p in patients ==> p.organ in OrganOptions(patients)
    ensures forall k :: 1 <= k < |OrganOptions(patients)| ==>
              exists p :: p in patients && p.organ == OrganOptions(patients)[k]
  {
    var organs := PatientOrgans(patients);
    var d := Distinct(organs);
    var r := OrganOptions(patients);
    forall p | p in patients ensures p.organ in r {
      var i :| 0 <= i < |patients| && patients[i] == p;
      assert organs[i] == p.organ && p.organ in d;
      var k :| 0 <= k < |d| && d[k] == p.organ;
      assert r[k + 1] == p.organ;
    }
    forall k | 1 <= k < |r| ensures exists p :: p in patients && p.organ == r[k] {
      assert r[k] == d[k - 1] && d[k - 1] in organs;
      var i :| 0 <= i < |organs| && organs[i] == r[k];
      assert patients[i] in patients;
    }
  }

  /** The organs after the wildcard appear in the order of their first
      appearance in the patient list. */
  lemma OrganOptionsOrder(patients: seq<Patient>)
    ensures forall i, j :: 1 <= i < j < |OrganOptions(patients)| ==>
              IndexOf(PatientOrgans(patients), OrganOptions(patients)[i]) <
              IndexOf(PatientOrgans(patients), OrganOptions(patients)[j])
  {
    var organs := PatientOrgans(patients);
    var d := Distinct(organs);
    var r := OrganOptions(patients);
    DistinctFirstOccurrenceOrder(organs);
    forall i, j | 1 <= i < j < |r|
      ensures IndexOf(organs, r[i]) < IndexOf(organs, r[j])
    {
      assert r[i] == d[i - 1] && r[j] == d[j - 1];
    }
  }

  /** The selector repeats no entry exactly when no patient's organ is
      literally "All". */
  lemma OrganOptionsNoDuplicates(patients: seq<Patient>)
    ensures NoDuplicates(OrganOptions(patients)) <==> forall p :: p in patients ==> p.organ != AllOrgans
  {
    if NoDuplicates(OrganOptions(patients)) {
      RepeatFreeOptionsExcludeWildcard(patients);
    }
    if forall p :: p in patients ==> p.organ != AllOrgans {
      WildcardFreeOrgansGiveRepeatFreeOptions(patients);
    }
  }

  /** A repeat-free selector means no patient's organ is the wildcard. */
  lemma RepeatFreeOptionsExcludeWildcard(patients: seq<Patient>)
    requires NoDuplicates(OrganOptions(patients))
    ensures forall p :: p in patients ==> p.organ != AllOrgans
  {
    var organs := PatientOrgans(patients);
    var d := Distinct(organs);
    var r := OrganOptions(patients);
    forall p | p in patients ensures p.organ != AllOrgans {
      var i :| 0 <= i < |patients| && patients[i] == p;
      assert organs[i] == p.organ && p.organ in d;
      var k :| 0 <= k < |d| && d[k] == p.organ;
      assert r[k + 1] == p.organ && r[0] != r[k + 1];
    }
  }

  /** When no patient's organ is the wildcard, the selector repeats nothing. */
  lemma WildcardFreeOrgansGiveRepeatFreeOptions(patients: seq<Patient>)
    requires forall p :: p in patients ==> p.organ != AllOrgans
    ensures NoDuplicates(OrganOptions(patients))
  {
    var organs := PatientOrgans(patients);
    var d := Distinct(organs);
    var r := OrganOptions(patients);
    OrganOptionsContents(patients);
    forall i, j | 0 <= i < j < |r| ensures r[i] != r[j] {
      if i == 0 {
        var p :| p in patients && p.organ == r[j];
      } else {
        assert r[i] == d[i - 1] && r[j] == d[j - 1];
      }
    }
  }

  /** On the fixed data the selector reads All, Heart, Liver, Kidneys, Corneas. */
  lemma MockOrganOptions()
    ensures OrganOptions(MockPatients) == ["All", "Heart", "Liver", "Kidneys", "Corneas"]
  {
    var organs := PatientOrgans(MockPatients);
    assert organs == ["Heart", "Liver", "Kidneys", "Corneas"];
    assert organs[..1] == ["Heart"];
    assert organs[..2][..1] == ["Heart"];
    assert organs[..3][..2] == ["Heart", "Liver"];
    assert Distinct(organs[..1]) == ["Heart"];
    assert Distinct(organs[..2]) == ["Heart", "Liver"];
    assert Distinct(organs[..3]) == ["Heart", "Liver", "Kidneys"];
  }

  /** JavaScript's `xs.slice(0, 2)`: the patients previewed under the table. */
  function Preview(filtered: seq<Patient>): (r: seq<Patient>)
    ensures |r| == if |filtered| < 2 then |filtered| else 2
    ensures r == filtered[..|r|]
  {
    if |filtered| < 2 then filtered else filtered[..2]
  }

  /** The matching preview: each previewed patient beside its compatible donors. */
  function MatchPreview(patients: seq<Patient>, donors: seq<DonorRecord>, query: string,
                        filterOrgan: string): (r: seq<(Patient, seq<DonorRecord>)>)
    ensures |r| <= 2
  {
    var shown := Preview(FilteredPatients(patients, query, filterOrgan));
    seq(|shown|, i requires 0 <= i < |shown| => (shown[i], CompatibleDonors(shown[i], donors)))
  }

  /** At most two patients are previewed: the first rows of the table, each
      with exactly its compatible donors. */
  lemma MatchPreviewSpec(patients: seq<Patient>, donors: seq<DonorRecord>, query: string,
                         filterOrgan: string)
    ensures var rows := FilteredPatients(patients, query, filterOrgan);
            var m := MatchPreview(patients, donors, query, filterOrgan);
            && |m| == (if |rows| < 2 then |rows| else 2)
            && (forall i :: 0 <= i < |m| ==> m[i].0 == rows[i])
            && (forall i :: 0 <= i < |m| ==> m[i].1 == CompatibleDonors(m[i].0, donors))
            && (forall i, d :: 0 <= i < |m| ==> (d in m[i].1 <==> d in donors && Compatible(d, m[i].0)))
            && (forall i :: 0 <= i < |m| ==> m[i].0 in patients && MatchesQuery(m[i].0, query)
                                             && MatchesOrgan(m[i].0, filterOrgan))
  {
    var rows := FilteredPatients(patients, query, filterOrgan);
    var m := MatchPreview(patients, donors, query, filterOrgan);
    FilteredPatientsSpec(patients, query, filterOrgan);
    forall i | 0 <= i < |m|
      ensures m[i].0 == rows[i] && rows[i] in rows
      ensures m[i].1 == CompatibleDonors(m[i].0, donors)
      ensures forall d :: d in m[i].1 <==> d in donors && Compatible(d, m[i].0)
    {
      CompatibleDonorsSpec(m[i].0, donors);
    }
  }

  /** With the initial inputs the preview shows P-101 with D-2201 and P-102 with D-2203. */
  lemma InitialPreview()
    ensures MatchPreview(MockPatients, MockDonors, "", AllOrgans) ==
            [(MockPatients[0], [MockDonors[0]]), (MockPatients[1], [MockDonors[2]])]
  {
    EmptySearchShowsAll(MockPatients);
    ArjunMatchesRiya();
    MiaMatchesLuis();
    PreviewOfTwo(MockPatients, MockDonors, "", AllOrgans);
  }

  /** For P-102 (Liver, A-) the only compatible donor is D-2203 (Luis Diaz). */
  lemma MiaMatchesLuis()
    ensures CompatibleDonors(MockPatients[1], MockDonors) == [MockDonors[2]]
    ensures MockDonors[2].id == "D-2203"
  {
    var ds := MockDonors;
    FilterOfThree(ds[0], ds[1], ds[2], d => Compatible(d, MockPatients[1]));
  }

  /** A table whose first two rows are `a` and `b` previews exactly those two,
      each beside its compatible donors. */
  lemma PreviewOfTwo(patients: seq<Patient>, donors: seq<DonorRecord>, query: string,
                     filterOrgan: string)
    requires |FilteredPatients(patients, query, filterOrgan)| >= 2
    ensures var rows := FilteredPatients(patients, query, filterOrgan);
            MatchPreview(patients, donors, query, filterOrgan) ==
            [(rows[0], CompatibleDonors(rows[0], donors)), (rows[1], CompatibleDonors(rows[1], donors))]
  {
  }
}
