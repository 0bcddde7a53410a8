/** A list that a loop builds: what it has so far, before what is still to come. */
module Lists {
  import opened Options

  ghost function Put<T>(ts: seq<T>, more: Option<seq<T>>): Option<seq<T>> {
    if more.None? then None else Some(ts + more.value)
  }

  lemma PutNothing<T>(more: Option<seq<T>>)
    ensures Put([], more) == more
  {
    if more.Some? {
      assert [] + more.value == more.value;
    }
  }

  lemma PutOne<T>(ts: seq<T>, t: T, more: Option<seq<T>>)
    ensures Put(ts + [t], more) == Put(ts, Put([t], more))
  {
    if more.Some? {
      assert ts + [t] + more.value == ts + ([t] + more.value);
    }
  }
}
