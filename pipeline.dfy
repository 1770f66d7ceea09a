/** The page's chain of calls: load and aggregate, `date_convert`, `tidy_death_data`. */
module Pipeline {
  import opened Frames
  import opened KeyOrder
  import opened Grouping
  import opened Reshape
  import opened Melting
  import opened Metrics
  import opened MetricLaws

  /** The date columns of a wide table are in increasing order. */
  predicate DatesIncrease(t: WideTable) {
    forall a, b :: 0 <= a < b < |t.dates| ==> t.dates[a] < t.dates[b]
  }

  /** Aggregating leaves one column per entity, so after `date_convert`, melting and the
      filter, each entity's rows come in date order: the hypothesis of the `Days`,
      `daily_change` and rolling-mean lemmas holds for every table the page builds from
      date columns in increasing order. */
  lemma AggregatedAscending(t: WideTable)
    requires t.Valid() && DatesIncrease(t)
    ensures GroupsAscending(Retain(Melt(Transpose(Aggregate(t)))))
  {
    var a := Aggregate(t);
    var f := Transpose(a);
    assert DatesAscending(f) by {
      forall d1, d2 | 0 <= d1 < d2 < |f.rows| ensures f.rows[d1].date < f.rows[d2].date {
        assert f.rows[d1].date == t.dates[d1] && f.rows[d2].date == t.dates[d2];
      }
    }
    assert DistinctEntities(f) by {
      forall e1, e2 | 0 <= e1 < e2 < |f.entities| ensures f.entities[e1] != f.entities[e2] {
        assert f.entities[e1] == Keys(a.rows)[e1] && f.entities[e2] == Keys(a.rows)[e2];
        SortedDistinct(Keys(a.rows), e1, e2);
      }
    }
    MeltedAscending(f);
  }
}
