/** The per-organisation hash chain of the audit log: the verifier, and exactly which
    changes to a chain it detects. */
module AuditChain {
  import opened Text
  import opened AuditText

  /** SHA-256 over an optional previous digest and a text, as a free constructor: equal digests
      come only from equal inputs. */
  datatype Digest = Sha256(prev: Option<Digest>, text: string)

  /** One stored row. `hash` is None for rows written before chaining was introduced. */
  datatype Row = Row(event: Event, ip: string, prev: Option<Digest>, hash: Option<Digest>)

  function RowHash(prev: Option<Digest>, e: Event): Digest {
    Sha256(prev, Canonical(e))
  }

  datatype Verdict = Verdict(checked: nat, ok: bool, brokenId: nat, brokenWhy: string)

  const PREV_MISMATCH := "prev_hash mismatch"
  const HASH_MISMATCH := "row_hash mismatch"

  predicate LinkBroken(rows: seq<Row>, i: nat)
    requires i < |rows|
  {
    i > 0 && rows[i].prev != rows[i - 1].hash
  }

  predicate HashBroken(rows: seq<Row>, i: nat)
    requires i < |rows|
  {
    rows[i].hash != Some(RowHash(rows[i].prev, rows[i].event))
  }

  /** No row is broken: every stored hash is right and every row points at its predecessor. */
  predicate Intact(rows: seq<Row>) {
    forall i :: 0 <= i < |rows| ==> !LinkBroken(rows, i) && !HashBroken(rows, i)
  }

  predicate AscendingIds(rows: seq<Row>) {
    forall i, j :: 0 <= i < j < |rows| ==> rows[i].event.id < rows[j].event.id
  }

  function VerifyFrom(rows: seq<Row>, i: nat): Verdict
    requires i <= |rows|
    decreases |rows| - i
  {
    if i == |rows| then Verdict(i, true, 0, "")
    else if LinkBroken(rows, i) then Verdict(i, false, rows[i].event.id, PREV_MISMATCH)
    else if HashBroken(rows, i) then Verdict(i, false, rows[i].event.id, HASH_MISMATCH)
    else VerifyFrom(rows, i + 1)
  }

  function Verify(rows: seq<Row>): Verdict {
    VerifyFrom(rows, 0)
  }

  /** The verification loop, over the chained rows of one organisation in id order. */
  method VerifyRows(rows: seq<Row>) returns (res: Verdict)
    ensures res == Verify(rows)
  {
    res := Verdict(0, true, 0, "");
    var expectedPrev: Option<Digest> := None;
    var first := true;
    var i := 0;
    while i < |rows|
      invariant 0 <= i <= |rows|
      invariant res == Verdict(i, true, 0, "")
      invariant first <==> i == 0
      invariant !first ==> expectedPrev == rows[i - 1].hash
      invariant Verify(rows) == VerifyFrom(rows, i)
    {
      var row := rows[i];
      if !first && row.prev != expectedPrev {
        res := Verdict(res.checked, false, row.event.id, PREV_MISMATCH);
        return;
      }
      var want := RowHash(row.prev, row.event);
      if Some(want) != row.hash {
        res := Verdict(res.checked, false, row.event.id, HASH_MISMATCH);
        return;
      }
      expectedPrev := row.hash;
      first := false;
      res := res.(checked := res.checked + 1);
      i := i + 1;
    }
  }

  /** The verdict is OK exactly on intact chains; otherwise it names the first broken row, checking
      the link before the hash, and counts the rows before it. */
  lemma {:induction false} VerdictMeaning(rows: seq<Row>, i: nat)
    requires i <= |rows| && forall j :: 0 <= j < i ==> !LinkBroken(rows, j) && !HashBroken(rows, j)
    ensures var v := VerifyFrom(rows, i);
      && v.checked <= |rows|
      && (v.ok <==> Intact(rows)) && (v.ok <==> v.checked == |rows|)
      && (forall j :: 0 <= j < v.checked ==> !LinkBroken(rows, j) && !HashBroken(rows, j))
      && (!v.ok ==> v.brokenId == rows[v.checked].event.id)
      && (!v.ok ==> LinkBroken(rows, v.checked) || HashBroken(rows, v.checked))
      && (!v.ok ==> v.brokenWhy == if LinkBroken(rows, v.checked) then PREV_MISMATCH else HASH_MISMATCH)
    decreases |rows| - i
  {
    if i < |rows| && !LinkBroken(rows, i) && !HashBroken(rows, i) {
      VerdictMeaning(rows, i + 1);
    }
  }

  /** The verifier passes over unbroken rows. */
  lemma {:induction false} VerifySkips(rows: seq<Row>, i: nat, j: nat)
    requires i <= j <= |rows|
    requires forall x :: i <= x < j ==> !LinkBroken(rows, x) && !HashBroken(rows, x)
    ensures VerifyFrom(rows, i) == VerifyFrom(rows, j)
    decreases j - i
  {
    if i < j {
      VerifySkips(rows, i + 1, j);
    }
  }

  lemma IntactVerifies(rows: seq<Row>)
    requires Intact(rows)
    ensures Verify(rows) == Verdict(|rows|, true, 0, "")
  {
    VerifySkips(rows, 0, |rows|);
  }

  /** Hashes identify rows: the hashed text contains the id, and ids ascend. */
  lemma HashesAreDistinct(rows: seq<Row>, i: nat, j: nat)
    requires Intact(rows) && AscendingIds(rows) && i < |rows| && j < |rows|
    requires rows[i].hash == rows[j].hash
    ensures i == j
  {
    assert !HashBroken(rows, i) && !HashBroken(rows, j);
    TextDeterminesId(rows[i].event, rows[j].event);
  }

  /** An unforked chain: no two rows have the same successor link. */
  lemma IntactIsUnforked(rows: seq<Row>, i: nat, j: nat)
    requires Intact(rows) && AscendingIds(rows) && 0 < i < |rows| && 0 < j < |rows|
    requires rows[i].prev == rows[j].prev
    ensures i == j
  {
    assert !LinkBroken(rows, i) && !LinkBroken(rows, j);
    HashesAreDistinct(rows, i - 1, j - 1);
  }

  // ---- Deleted rows ----

  predicate Selects(kept: seq<nat>, n: nat) {
    (forall j :: 0 <= j < |kept| ==> kept[j] < n) &&
    (forall i, j :: 0 <= i < j < |kept| ==> kept[i] < kept[j])
  }

  function Pick(rows: seq<Row>, kept: seq<nat>): (r: seq<Row>)
    requires forall j :: 0 <= j < |kept| ==> kept[j] < |rows|
  {
    seq(|kept|, j requires 0 <= j < |kept| => rows[kept[j]])
  }

  predicate GapAt(kept: seq<nat>, j: nat)
    requires j < |kept|
  {
    j > 0 && kept[j] != kept[j - 1] + 1
  }

  predicate Contiguous(kept: seq<nat>) {
    forall j :: 0 <= j < |kept| ==> !GapAt(kept, j)
  }

  /** Deleting rows from an intact chain is detected exactly when an interior gap appears: a kept
      contiguous block still verifies, and otherwise the verifier stops at the first kept row
      after the first gap. */
  lemma DeletionVerdict(rows: seq<Row>, kept: seq<nat>)
    requires Intact(rows) && AscendingIds(rows) && Selects(kept, |rows|)
    ensures Contiguous(kept) <==> Verify(Pick(rows, kept)).ok
    ensures Contiguous(kept) ==> Verify(Pick(rows, kept)) == Verdict(|kept|, true, 0, "")
    ensures forall j :: 0 <= j < |kept| && GapAt(kept, j) && Contiguous(kept[..j]) ==>
              Verify(Pick(rows, kept)) == Verdict(j, false, rows[kept[j]].event.id, PREV_MISMATCH)
  {
    var picked := Pick(rows, kept);
    forall j | 0 <= j < |kept|
      ensures !HashBroken(picked, j)
      ensures LinkBroken(picked, j) <==> GapAt(kept, j)
    {
      assert !HashBroken(rows, kept[j]);
      if j > 0 {
        assert kept[j - 1] < kept[j];
        assert !LinkBroken(rows, kept[j]);
        if rows[kept[j] - 1].hash == rows[kept[j - 1]].hash {
          HashesAreDistinct(rows, kept[j] - 1, kept[j - 1]);
        }
      }
    }
    if Contiguous(kept) {
      IntactVerifies(picked);
    } else {
      var g := FirstGap(kept, 0);
      StopsAtGap(picked, kept, g);
    }
    forall j | 0 <= j < |kept| && GapAt(kept, j) && Contiguous(kept[..j])
      ensures Verify(picked) == Verdict(j, false, rows[kept[j]].event.id, PREV_MISMATCH)
    {
      forall i | 0 <= i < j ensures !GapAt(kept, i) {
        assert !GapAt(kept[..j], i);
      }
      StopsAtGap(picked, kept, j);
    }
  }

  /** All positions below n but k. */
  function Without(n: nat, k: nat): seq<nat>
    requires k < n
  {
    seq(n - 1, j requires 0 <= j < n - 1 => if j < k then j else j + 1)
  }

  /** Deleting one row is found at the row after it, unless it is the first or the last one. */
  lemma OneDeletedRow(rows: seq<Row>, k: nat)
    requires Intact(rows) && AscendingIds(rows) && k < |rows|
    ensures Verify(rows[..k] + rows[k + 1..]) ==
            if k == 0 || k == |rows| - 1 then Verdict(|rows| - 1, true, 0, "")
            else Verdict(k, false, rows[k + 1].event.id, PREV_MISMATCH)
  {
    var kept := Without(|rows|, k);
    assert Pick(rows, kept) == rows[..k] + rows[k + 1..];
    DeletionVerdict(rows, kept);
    if 0 < k < |rows| - 1 {
      assert GapAt(kept, k) && Contiguous(kept[..k]);
    }
  }

  lemma {:induction false} FirstGap(kept: seq<nat>, i: nat) returns (g: nat)
    requires i <= |kept| && !Contiguous(kept)
    requires forall x :: 0 <= x < i ==> !GapAt(kept, x)
    ensures g < |kept| && GapAt(kept, g) && forall x :: 0 <= x < g ==> !GapAt(kept, x)
    decreases |kept| - i
  {
    if GapAt(kept, i) {
      g := i;
    } else {
      g := FirstGap(kept, i + 1);
    }
  }

  lemma StopsAtGap(picked: seq<Row>, kept: seq<nat>, g: nat)
    requires |picked| == |kept| && g < |kept| && GapAt(kept, g)
    requires forall j :: 0 <= j < |kept| ==> !HashBroken(picked, j) && (LinkBroken(picked, j) <==> GapAt(kept, j))
    requires forall j :: 0 <= j < g ==> !GapAt(kept, j)
    ensures Verify(picked) == Verdict(g, false, picked[g].event.id, PREV_MISMATCH)
  {
    VerifySkips(picked, 0, g);
  }

  // ---- Edited rows ----

  /** Rewriting a row in place, leaving its two hashes: detected, at that row, exactly when its
      canonical text changes. */
  lemma EditVerdict(rows: seq<Row>, k: nat, edited: Row)
    requires Intact(rows) && k < |rows|
    requires edited.prev == rows[k].prev && edited.hash == rows[k].hash
    ensures Verify(rows[k := edited]) ==
            if Canonical(edited.event) == Canonical(rows[k].event)
            then Verdict(|rows|, true, 0, "")
            else Verdict(k, false, edited.event.id, HASH_MISMATCH)
  {
    var after := rows[k := edited];
    forall i | 0 <= i < |rows|
      ensures !LinkBroken(after, i)
      ensures i != k ==> !HashBroken(after, i)
    {
      assert !LinkBroken(rows, i) && !HashBroken(rows, i);
    }
    assert !HashBroken(rows, k);
    if Canonical(edited.event) == Canonical(rows[k].event) {
      IntactVerifies(after);
    } else {
      VerifySkips(after, 0, k);
    }
  }

  /** An edit of one hashed field, or of any of them in rows without bars before the metadata,
      is reported at the edited row. */
  lemma EditIsDetected(rows: seq<Row>, k: nat, edited: Row, field: nat)
    requires Intact(rows) && k < |rows|
    requires edited.prev == rows[k].prev && edited.hash == rows[k].hash
    requires edited.event != rows[k].event && edited.event.at.Valid() && rows[k].event.at.Valid()
    requires
      || (BarFree(edited.event) && BarFree(rows[k].event))
      || (field < 9 && Fields(edited.event) == Fields(rows[k].event)[field := Fields(edited.event)[field]])
    ensures Verify(rows[k := edited]) == Verdict(k, false, edited.event.id, HASH_MISMATCH)
  {
    if Canonical(edited.event) == Canonical(rows[k].event) {
      if BarFree(edited.event) && BarFree(rows[k].event) {
        CanonicalInjective(edited.event, rows[k].event);
      } else {
        SingleFieldEditChangesText(rows[k].event, edited.event, field);
      }
    }
    EditVerdict(rows, k, edited);
  }

  lemma RehashedRows(rows: seq<Row>, k: nat, forged: Row)
    requires Intact(rows) && k < |rows| && forged.prev == rows[k].prev
    requires forged.hash == Some(RowHash(forged.prev, forged.event)) && forged.hash != rows[k].hash
    ensures var after := rows[k := forged];
      forall i :: 0 <= i < |rows| ==> !HashBroken(after, i) && (LinkBroken(after, i) <==> i == k + 1)
  {
    var after := rows[k := forged];
    forall i | 0 <= i < |rows| ensures !HashBroken(after, i) && (LinkBroken(after, i) <==> i == k + 1) {
      assert !LinkBroken(rows, i) && !HashBroken(rows, i);
    }
  }

  /** Rewriting a row together with its own hash is detected at the next row, if there is one. */
  lemma RehashVerdict(rows: seq<Row>, k: nat, forged: Row)
    requires Intact(rows) && k < |rows| && forged.prev == rows[k].prev
    requires forged.hash == Some(RowHash(forged.prev, forged.event)) && forged.hash != rows[k].hash
    ensures Verify(rows[k := forged]) ==
            if k + 1 == |rows| then Verdict(|rows|, true, 0, "")
            else Verdict(k + 1, false, rows[k + 1].event.id, PREV_MISMATCH)
  {
    RehashedRows(rows, k, forged);
    VerifySkips(rows[k := forged], 0, k + 1);
  }
}
