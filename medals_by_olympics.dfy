/**
 * `MedalsByOlympics`: the Gold/Silver/Bronze/Total medals of every committee
 * at one Olympiad, read from the committee x olympiad table, whose rows
 * labelled "All" hold the all-time totals.
 */
module MedalsByOlympics {
  import opened Tables
  import opened Medals

  /** A row of the committee x olympiad table once its Olympiad column is dropped. */
  datatype CommitteeMedals = CommitteeMedals(committee: string, gold: int, silver: int, bronze: int, total: int)

  /** `drop(columns="Olympiad")` on one row: every other column is kept. */
  function DropOlympiad(r: CommitteeOlympiadRow): CommitteeMedals
  {
    CommitteeMedals(r.committee, r.gold, r.silver, r.bronze, r.total)
  }

  /** Puts an Olympiad label back on a row. */
  function Labelled(olympiad: string, m: CommitteeMedals): CommitteeOlympiadRow
  {
    CommitteeOlympiadRow(olympiad, m.committee, m.gold, m.silver, m.bronze, m.total)
  }

  function WithOlympiad(olympiad: string): CommitteeMedals -> CommitteeOlympiadRow
  {
    (m: CommitteeMedals) => Labelled(olympiad, m)
  }

  /** The mask `df["Olympiad"] == olympiad`. */
  function OfOlympiad(olympiad: string): CommitteeOlympiadRow -> bool
  {
    (r: CommitteeOlympiadRow) => r.olympiad == olympiad
  }

  /**
   * `_compute_data_by_olympics`: the rows of one Olympiad label, in order,
   * without their Olympiad column. "All" is an ordinary label here, and a label
   * with no rows gives the empty table rather than an error.
   */
  function ComputeDataByOlympics(table: seq<CommitteeOlympiadRow>, olympiad: string): (r: seq<CommitteeMedals>)
    ensures |r| == CountWhere(table, OfOlympiad(olympiad))
    ensures forall m :: m in r <==> Labelled(olympiad, m) in table
    ensures r == [] <==> forall x :: x in table ==> x.olympiad != olympiad
  {
    var selected := Filter(table, OfOlympiad(olympiad));
    var r := MapSeq(selected, DropOlympiad);
    forall m ensures m in r <==> Labelled(olympiad, m) in table {
      if m in r {
        var i :| 0 <= i < |r| && r[i] == m;
        assert selected[i] in selected;
      }
      if Labelled(olympiad, m) in table {
        assert Labelled(olympiad, m) in selected;
        var i :| 0 <= i < |selected| && selected[i] == Labelled(olympiad, m);
        assert r[i] == m;
      }
    }
    assert r == [] ==> forall x :: x in table ==> x.olympiad != olympiad by {
      if r == [] {
        forall x | x in table ensures x.olympiad != olympiad {
          assert DropOlympiad(x) !in r;
        }
      }
    }
    assert r != [] ==> r[0] in r;
    r
  }

  /**
   * Dropping the column loses nothing: putting the label back gives exactly the
   * selected rows of the stored table.
   */
  lemma RestoringOlympiadGivesSelectedRows(table: seq<CommitteeOlympiadRow>, olympiad: string)
    ensures MapSeq(ComputeDataByOlympics(table, olympiad), WithOlympiad(olympiad)) == Filter(table, OfOlympiad(olympiad))
  {
    var selected := Filter(table, OfOlympiad(olympiad));
    var restored := MapSeq(ComputeDataByOlympics(table, olympiad), WithOlympiad(olympiad));
    assert ComputeDataByOlympics(table, olympiad) == MapSeq(selected, DropOlympiad);
    forall i | 0 <= i < |selected| ensures restored[i] == selected[i] {
      assert selected[i] in selected;
    }
  }
}
