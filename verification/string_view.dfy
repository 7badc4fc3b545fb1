/**
 * The part of `absl::string_view` the host/port codec uses: searching for a
 * character from a starting position.
 */
module StringView {
  import opened Wrappers

  /**
   * `s.find(c, from)`: the index of the first `c` at or after `from`, or
   * `None` (the `npos` sentinel) when there is none, including when `from`
   * is past the end.
   */
  function Find(s: string, c: char, from: nat): (r: Option<nat>)
    ensures r.Some? ==> from <= r.value < |s| && s[r.value] == c
    ensures r.Some? ==> forall k | from <= k < r.value :: s[k] != c
    ensures r.None? ==> forall k | from <= k < |s| :: s[k] != c
    decreases |s| - from
  {
    if from >= |s| then None
    else if s[from] == c then Some(from)
    else Find(s, c, from + 1)
  }
}
