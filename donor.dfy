/** The donor registration form: a record of what the donor has entered,
    a validity test that enables the submit button, the organ toggle buttons,
    and a `submitted` flag that a valid submission sets. */
module Donor {
  import opened Seqs
  import opened Text

  /** The choices the blood-type selector offers. */
  const BloodTypes: seq<string> := ["A+", "A-", "B+", "B-", "AB+", "AB-", "O+", "O-"]

  /** The organs the donor can toggle on and off. */
  const OrganCatalog: seq<string> := ["Heart", "Liver", "Kidneys", "Lungs", "Pancreas", "Corneas"]

  /** What the donor has entered so far; `organs` lists selections in the order they were made. */
  datatype Form = Form(name: string, bloodType: string, organs: seq<string>, location: string,
                       consent: bool)

  /** The form as the component first shows it. */
  const InitialForm: Form := Form("", "O+", [], "", false)

  /** The submit button is enabled: a name and a location longer than one
      UTF-16 code unit once trimmed, at least one organ, a blood type and consent. */
  predicate IsValid(f: Form)
    ensures IsValid(f) ==> Trim(f.name) != [] && Trim(f.location) != []
  {
    && Utf16Length(Trim(f.name)) > 1
    && Utf16Length(Trim(f.location)) > 1
    && |f.organs| > 0
    && f.bloodType != ""
    && f.consent
  }

  /** Validity read without trimming: a name and a location that each hold two
      visible characters or one visible character above U+FFFF, a selected
      organ, a blood type and consent. */
  lemma {:induction false} IsValidCharacterized(f: Form)
    ensures IsValid(f) <==>
              && (TwoVisible(f.name) || VisibleAstral(f.name))
              && (TwoVisible(f.location) || VisibleAstral(f.location))
              && f.organs != []
              && f.bloodType != ""
              && f.consent
  {
    TrimLongerThanOne(f.name);
    TrimLongerThanOne(f.location);
  }

  /** The freshly mounted form cannot be submitted. */
  lemma InitialFormInvalid()
    ensures !IsValid(InitialForm)
    ensures InitialForm.bloodType in BloodTypes
  {
  }

  /** "Jo" in "NY", offering a heart with consent, may submit. */
  lemma ValidExample()
    ensures IsValid(Form("Jo", "O+", ["Heart"], "NY", true))
  {
    assert TwoVisible("Jo") by { assert !IsSpace("Jo"[0]) && !IsSpace("Jo"[1]); }
    assert TwoVisible("NY") by { assert !IsSpace("NY"[0]) && !IsSpace("NY"[1]); }
    IsValidCharacterized(Form("Jo", "O+", ["Heart"], "NY", true));
  }

  /** A one-character name above U+FFFF is two code units long, so it passes. */
  lemma AstralNameValid()
    ensures IsValid(Form("\U{1F600}", "O+", ["Heart"], "NY", true))
  {
    assert VisibleAstral("\U{1F600}") by { assert !IsSpace("\U{1F600}"[0]); }
    assert TwoVisible("NY") by { assert !IsSpace("NY"[0]) && !IsSpace("NY"[1]); }
    IsValidCharacterized(Form("\U{1F600}", "O+", ["Heart"], "NY", true));
  }

  /** A one-letter name blocks submission, whatever blanks surround it. */
  lemma OneLetterNameInvalid(before: nat, after: nat)
    ensures !IsValid(Form(Spaces(before) + "A" + Spaces(after), "O+", ["Heart"], "City", true))
  {
    var name := Spaces(before) + "A" + Spaces(after);
    assert forall i :: 0 <= i < |name| && !IsSpace(name[i]) ==> i == before && name[i] == 'A';
    assert !TwoVisible(name);
    assert !VisibleAstral(name);
    IsValidCharacterized(Form(name, "O+", ["Heart"], "City", true));
  }

  /** `n` blanks. */
  function Spaces(n: nat): (r: string)
    ensures |r| == n && forall i :: 0 <= i < n ==> r[i] == ' '
  {
    seq(n, _ => ' ')
  }

  /** The organ button handler's new selection: remove every copy of a
      selected organ, or append an unselected one. */
  function Toggle(organs: seq<string>, org: string): (r: seq<string>)
    ensures |r| <= |organs| + 1
  {
    if org in organs then Filter(organs, o => o != org) else organs + [org]
  }

  /** Toggling a selected organ drops every copy of it and keeps the rest,
      with their multiplicities, in their order. */
  lemma ToggleRemovesSelected(organs: seq<string>, org: string)
    requires org in organs
    ensures org !in Toggle(organs, org)
    ensures IsSubsequence(Toggle(organs, org), organs)
    ensures multiset(Toggle(organs, org)) == multiset(organs)[org := 0]
  {
    var keep := o => o != org;
    FilterIsSubsequence(organs, keep);
    FilterMembership(organs, keep);
    forall o ensures multiset(Toggle(organs, org))[o] == multiset(organs)[org := 0][o] {
      FilterCount(organs, keep, o);
    }
  }

  /** Toggling an unselected organ appends it at the end. */
  lemma ToggleAppendsUnselected(organs: seq<string>, org: string)
    requires org !in organs
    ensures Toggle(organs, org) == organs + [org]
    ensures |Toggle(organs, org)| == |organs| + 1 && Toggle(organs, org)[|organs|] == org
  {
  }

  /** As sets, toggling is symmetric difference with the one organ. */
  lemma ToggleSymmetricDifference(organs: seq<string>, org: string)
    ensures forall o :: o in Toggle(organs, org) <==> (o in organs <==> o != org)
  {
    if org in organs {
      FilterMembership(organs, o => o != org);
    }
  }

  /** Toggling an unselected organ twice gives back the original selection. */
  lemma {:induction false} ToggleTwiceRestores(organs: seq<string>, org: string)
    requires org !in organs
    ensures Toggle(Toggle(organs, org), org) == organs
  {
    var keep := o => o != org;
    var once := organs + [org];
    assert org in once;
    FilterAppend(organs, [org], keep);
    FilterKeepsAll(organs, keep);
    assert Filter([org], keep) == [];
  }

  /** A selection without repeats stays without repeats. */
  lemma ToggleKeepsNoDuplicates(organs: seq<string>, org: string)
    requires NoDuplicates(organs)
    ensures NoDuplicates(Toggle(organs, org))
  {
    if org in organs {
      FilterNoDuplicates(organs, o => o != org);
    }
  }

  /** Toggling catalog organs only ever selects catalog organs. */
  lemma ToggleWithinCatalog(organs: seq<string>, org: string)
    requires forall o :: o in organs ==> o in OrganCatalog
    requires org in OrganCatalog
    ensures forall o :: o in Toggle(organs, org) ==> o in OrganCatalog
  {
    ToggleSymmetricDifference(organs, org);
  }

  /** The registration component's state: the form and whether it was submitted. */
  class DonorDashboard {
    var form: Form
    var submitted: bool

    /** What the controls can produce: a listed blood type and a repeat-free
        selection of catalog organs. */
    ghost predicate FromControls()
      reads this
    {
      && form.bloodType in BloodTypes
      && NoDuplicates(form.organs)
      && (forall o :: o in form.organs ==> o in OrganCatalog)
    }

    constructor ()
      ensures form == InitialForm && !submitted
      ensures FromControls()
    {
      form := InitialForm;
      submitted := false;
    }

    /** The name field's change handler. */
    method SetName(name: string)
      modifies this
      ensures form == old(form).(name := name) && submitted == old(submitted)
      ensures old(FromControls()) ==> FromControls()
    {
      form := form.(name := name);
    }

    /** The blood-type selector's change handler. */
    method SetBloodType(bloodType: string)
      modifies this
      ensures form == old(form).(bloodType := bloodType) && submitted == old(submitted)
      ensures old(FromControls()) && bloodType in BloodTypes ==> FromControls()
    {
      form := form.(bloodType := bloodType);
    }

    /** The location field's change handler. */
    method SetLocation(location: string)
      modifies this
      ensures form == old(form).(location := location) && submitted == old(submitted)
      ensures old(FromControls()) ==> FromControls()
    {
      form := form.(location := location);
    }

    /** The consent checkbox's change handler. */
    method SetConsent(consent: bool)
      modifies this
      ensures form == old(form).(consent := consent) && submitted == old(submitted)
      ensures old(FromControls()) ==> FromControls()
    {
      form := form.(consent := consent);
    }

    /** An organ button's click handler: only the selection changes. */
    method ToggleOrgan(org: string)
      modifies this
      ensures form.organs == Toggle(old(form.organs), org)
      ensures form.name == old(form.name) && form.bloodType == old(form.bloodType)
      ensures form.location == old(form.location) && form.consent == old(form.consent)
      ensures submitted == old(submitted)
      ensures old(FromControls()) && org in OrganCatalog ==> FromControls()
    {
      if FromControls() && org in OrganCatalog {
        ToggleKeepsNoDuplicates(form.organs, org);
        ToggleWithinCatalog(form.organs, org);
      }
      form := form.(organs := Toggle(form.organs, org));
    }

    /** The form's submit handler: a valid form sets `submitted`, an invalid
        one changes nothing; nothing ever clears `submitted`. */
    method OnSubmit()
      modifies this
      ensures form == old(form)
      ensures IsValid(form) ==> submitted
      ensures !IsValid(form) ==> submitted == old(submitted)
      ensures old(submitted) ==> submitted
    {
      if !IsValid(form) {
        return;
      }
      submitted := true;
    }
  }
}
