/**
 `select_first_encounter`: one row per patient, the patient's encounter with
 the lowest encounter id, as `df.sort_values('encounter_id')` followed by
 `drop_duplicates('patient_nbr', keep='first')`.
 */
module FirstEncounter {
  import opened Seqs
  import opened StableSort
  import opened Frames

  /** An encounter row: the two integer identifier columns the selection
      reads, and every other column by name. */
  datatype Encounter = Encounter(encounterId: int, patientNbr: int, attributes: Row)

  function EncounterId(e: Encounter): int
  {
    e.encounterId
  }

  function PatientNbr(e: Encounter): int
  {
    e.patientNbr
  }

  /** Keeping the first occurrences of a sorted sequence leaves it sorted. */
  lemma {:induction false} KeepFirstSorted<T(!new), K>(s: seq<T>, key: T -> K, order: T -> int)
    requires SortedBy(s, order)
    ensures SortedBy(KeepFirst(s, key), order)
  {
    if |s| > 0 {
      var init := s[..|s| - 1];
      assert SortedBy(init, order);
      KeepFirstSorted(init, key, order);
      KeepFirstFirst(init, key);
      var d := KeepFirst(init, key);
      forall i | 0 <= i < |d|
        ensures order(d[i]) <= order(s[|s| - 1])
      {
        assert d[i] in d;
        var j :| 0 <= j < |init| && init[j] == d[i] && forall m :: 0 <= m < j ==> key(init[m]) != key(d[i]);
        assert s[j] == init[j];
      }
    }
  }

  function SortByEncounter(rows: seq<Encounter>): (s: seq<Encounter>)
    ensures SortedBy(s, EncounterId)
    ensures forall x :: x in s <==> x in rows
    ensures forall p :: HasKey(s, PatientNbr, p) <==> HasKey(rows, PatientNbr, p)
  {
    var s := SortBy(rows, EncounterId);
    SortByCount(rows, EncounterId);
    assert forall x :: x in s <==> x in rows by {
      assert forall x :: x in s <==> x in multiset(s);
      assert forall x :: x in rows <==> x in multiset(rows);
    }
    forall p
      ensures HasKey(s, PatientNbr, p) <==> HasKey(rows, PatientNbr, p)
    {
      if HasKey(s, PatientNbr, p) {
        var i :| 0 <= i < |s| && PatientNbr(s[i]) == p;
        assert s[i] in rows;
      }
      if HasKey(rows, PatientNbr, p) {
        var i :| 0 <= i < |rows| && PatientNbr(rows[i]) == p;
        assert rows[i] in s;
      }
    }
    s
  }

  /** The first row of a patient in an encounter-sorted sequence has the
      smallest encounter id of that patient. */
  lemma FirstIsMinimal(sorted: seq<Encounter>, x: Encounter, y: Encounter)
    requires SortedBy(sorted, EncounterId)
    requires FirstOfKey(sorted, PatientNbr, x)
    requires y in sorted && y.patientNbr == x.patientNbr
    ensures x.encounterId <= y.encounterId
  {
    var i :| 0 <= i < |sorted| && sorted[i] == x && forall m :: 0 <= m < i ==> PatientNbr(sorted[m]) != PatientNbr(x);
    var j :| 0 <= j < |sorted| && sorted[j] == y;
    assert i <= j;
  }

  /** The first encounter of every patient, in ascending encounter-id order:
      every patient of the input appears exactly once, and with an encounter
      whose id is not larger than that of any other encounter of theirs. */
  function SelectFirstEncounter(rows: seq<Encounter>): (r: seq<Encounter>)
    ensures forall p :: HasKey(r, PatientNbr, p) <==> HasKey(rows, PatientNbr, p)
    ensures DistinctKeys(r, PatientNbr)
    ensures SortedBy(r, EncounterId)
    ensures forall x :: x in r ==> x in rows
    ensures forall x, y :: x in r && y in rows && y.patientNbr == x.patientNbr ==> x.encounterId <= y.encounterId
  {
    var sorted := SortByEncounter(rows);
    var r := KeepFirst(sorted, PatientNbr);
    KeepFirstKeys(sorted, PatientNbr);
    KeepFirstDistinct(sorted, PatientNbr);
    KeepFirstSorted(sorted, PatientNbr, EncounterId);
    KeepFirstFirst(sorted, PatientNbr);
    forall x | x in r
      ensures x in rows
      ensures forall y :: y in rows && y.patientNbr == x.patientNbr ==> x.encounterId <= y.encounterId
    {
      var i :| 0 <= i < |sorted| && sorted[i] == x && forall m :: 0 <= m < i ==> PatientNbr(sorted[m]) != PatientNbr(x);
      forall y | y in rows && y.patientNbr == x.patientNbr
        ensures x.encounterId <= y.encounterId
      {
        FirstIsMinimal(sorted, x, y);
      }
    }
    r
  }
}
