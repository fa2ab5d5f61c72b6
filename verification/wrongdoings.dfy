/**
 * `CreateWrongdoingsForm.clean`: the members voting right, wrong and
 * abstaining on a round must fall in at most one of the three categories.
 * A member is identified by its primary key; the message that lists the
 * offending members is reduced to the set it lists.
 */
module Wrongdoings {
  import opened Wrappers

  type Member = nat

  /** The vote fields of the form's `cleaned_data`; a field absent from it is None. */
  datatype VoteData = VoteData(right: Option<seq<Member>>, wrong: Option<seq<Member>>, abstain: Option<seq<Member>>)

  /** The form is returned as cleaned, or a ValidationError names the members voting twice. */
  datatype Cleaned = Clean(data: VoteData) | ValidationError(duplicates: set<Member>)

  /** `set(cleaned_data.get(field, []))`. */
  function Members(field: Option<seq<Member>>): (s: set<Member>)
    ensures field.None? ==> s == {}
    ensures field.Some? ==> forall m :: m in s <==> m in field.value
  {
    match field
    case None => {}
    case Some(ms) => set m | m in ms
  }

  /** In how many of the three categories `m` was put; the duplicate rule of `clean` is stated against this count. */
  function CategoryCount(m: Member, data: VoteData): (n: nat)
    ensures n <= 3
  {
    (if m in Members(data.right) then 1 else 0)
    + (if m in Members(data.wrong) then 1 else 0)
    + (if m in Members(data.abstain) then 1 else 0)
  }

  /** The pairwise intersections of the three categories. */
  function Duplicates(data: VoteData): set<Member> {
    var right, wrong, abstain := Members(data.right), Members(data.wrong), Members(data.abstain);
    (right * wrong) + (right * abstain) + (wrong * abstain)
  }

  /** The members the form reports are exactly those put in two categories or more. */
  lemma DuplicatesAreRepeatedVotes(data: VoteData)
    ensures forall m :: m in Duplicates(data) <==> CategoryCount(m, data) >= 2
  {
  }

  /**
   * `clean`: a ValidationError exactly when some member is in two or more
   * categories, reporting all of them; otherwise the cleaned data unchanged.
   */
  function CleanVotes(data: VoteData): (r: Cleaned)
    ensures r.ValidationError? <==> exists m :: CategoryCount(m, data) >= 2
    ensures r.ValidationError? ==> forall m :: m in r.duplicates <==> CategoryCount(m, data) >= 2
    ensures r.Clean? ==> r.data == data
  {
    var duplicates := Duplicates(data);
    DuplicatesAreRepeatedVotes(data);
    if duplicates != {} then ValidationError(duplicates) else Clean(data)
  }

  /** A form that cleans has three pairwise disjoint categories, and such a form always cleans. */
  lemma CleanIffDisjoint(data: VoteData)
    ensures CleanVotes(data).Clean? <==>
      && Members(data.right) * Members(data.wrong) == {}
      && Members(data.right) * Members(data.abstain) == {}
      && Members(data.wrong) * Members(data.abstain) == {}
  {
    DuplicatesAreRepeatedVotes(data);
    var right, wrong, abstain := Members(data.right), Members(data.wrong), Members(data.abstain);
    if CleanVotes(data).Clean? {
      assert Duplicates(data) == {};
      assert right * wrong == {} && right * abstain == {} && wrong * abstain == {};
    } else {
      var m :| CategoryCount(m, data) >= 2;
      assert m in right * wrong || m in right * abstain || m in wrong * abstain;
    }
  }

  /** The form with every absent vote field given as an empty list. */
  function Filled(data: VoteData): (f: VoteData)
    ensures f.right.Some? && f.wrong.Some? && f.abstain.Some?
    ensures Members(f.right) == Members(data.right) && Members(f.wrong) == Members(data.wrong)
    ensures Members(f.abstain) == Members(data.abstain)
  {
    VoteData(
      if data.right.None? then Some([]) else data.right,
      if data.wrong.None? then Some([]) else data.wrong,
      if data.abstain.None? then Some([]) else data.abstain)
  }

  /** A field left out of the form counts as an empty category. */
  lemma MissingFieldsAreEmpty(data: VoteData)
    ensures CleanVotes(data).Clean? <==> CleanVotes(Filled(data)).Clean?
    ensures CleanVotes(data).ValidationError? ==> CleanVotes(data) == CleanVotes(Filled(data))
  {
    assert Duplicates(data) == Duplicates(Filled(data));
  }
}
