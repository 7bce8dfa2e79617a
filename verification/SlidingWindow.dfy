/** internal/api/middleware.go, limiter.allow: at most so many attempts per key in any window of time. */
module SlidingWindow {

  /** The stored times after the cutoff, in order. */
  function Kept(times: seq<real>, cutoff: real): (r: seq<real>)
    ensures |r| <= |times|
  {
    if times == [] then []
    else
      var rest, t := Kept(times[..|times| - 1], cutoff), times[|times| - 1];
      if t > cutoff then rest + [t] else rest
  }

  lemma KeptAppend(times: seq<real>, t: real, cutoff: real)
    ensures Kept(times + [t], cutoff) == Kept(times, cutoff) + if t > cutoff then [t] else []
  {
    assert (times + [t])[..|times|] == times;
  }

  /** What the limiter stores: the attempt times per key. */
  type Hits = map<string, seq<real>>

  function TimesOf(m: Hits, key: string): seq<real> {
    if key in m then m[key] else []
  }

  /** One attempt; the clock is read once for the cutoff and once for the stamp. */
  function Step(m: Hits, window: real, maxHits: int, key: string, read: real, stamp: real): (Hits, bool) {
    var times := Kept(TimesOf(m, key), read - window) + [stamp];
    (m[key := times], |times| <= maxHits)
  }

  // ---- The code: slices that share and reuse their backing arrays ----

  datatype Slice = Slice(buf: array<real>, len: nat)

  ghost function BuffersOf(h: map<string, Slice>): set<array<real>> {
    set k | k in h :: h[k].buf
  }

  ghost predicate Separate(h: map<string, Slice>) {
    && (forall k :: k in h ==> h[k].len <= h[k].buf.Length)
    && (forall k, l :: k in h && l in h && k != l ==> h[k].buf != h[l].buf)
  }

  ghost function ContentsOf(h: map<string, Slice>): Hits
    reads BuffersOf(h)
    requires Separate(h)
  {
    map k | k in h :: h[k].buf[..h[k].len]
  }

  lemma ContentsWithout(h: map<string, Slice>, key: string)
    requires Separate(h)
    ensures Separate(h - {key}) && ContentsOf(h - {key}) == ContentsOf(h) - {key}
    ensures BuffersOf(h - {key}) <= BuffersOf(h)
    ensures key in h ==> h[key].buf !in BuffersOf(h - {key})
  {
  }

  lemma NoSliceOf(h: map<string, Slice>, key: string)
    requires Separate(h) && key !in h
    ensures TimesOf(ContentsOf(h), key) == []
  {
  }

  lemma SliceOf(h: map<string, Slice>, key: string)
    requires Separate(h) && key in h
    ensures h[key].len <= h[key].buf.Length && h[key].buf in BuffersOf(h)
    ensures TimesOf(ContentsOf(h), key) == h[key].buf[..h[key].len]
    ensures forall k :: k in ContentsOf(h) <==> k in h
  {
  }

  lemma BuffersWith(h: map<string, Slice>, key: string, s: Slice)
    requires key !in h
    ensures BuffersOf(h[key := s]) == BuffersOf(h) + {s.buf}
  {
    var g := h[key := s];
    assert g[key] == s && g[key].buf in BuffersOf(g);
    forall b | b in BuffersOf(h) ensures b in BuffersOf(g) {
      var k :| k in h && h[k].buf == b;
      assert k in g && g[k] == h[k];
    }
  }

  lemma ContentsWith(h: map<string, Slice>, key: string, s: Slice)
    requires Separate(h) && key !in h && s.len <= s.buf.Length && s.buf !in BuffersOf(h)
    ensures Separate(h[key := s]) && ContentsOf(h[key := s]) == ContentsOf(h)[key := s.buf[..s.len]]
  {
    var g := h[key := s];
    forall k | k in h ensures g[k] == h[k] && h[k].buf != s.buf {
      assert h[k].buf in BuffersOf(h);
    }
  }

  /** Storing a key's new slice, whose array none of the other keys uses. */
  lemma SliceStored(h: map<string, Slice>, key: string, s: Slice)
    requires Separate(h - {key}) && s.len <= s.buf.Length && s.buf !in BuffersOf(h - {key})
    ensures Separate(h[key := s]) && BuffersOf(h[key := s]) == BuffersOf(h - {key}) + {s.buf}
    ensures ContentsOf(h[key := s]) == ContentsOf(h - {key})[key := s.buf[..s.len]]
  {
    hide Separate, BuffersOf, ContentsOf;
    assert h[key := s] == (h - {key})[key := s];
    ContentsWith(h - {key}, key, s);
    BuffersWith(h - {key}, key, s);
  }

  class Limiter {
    var hits: map<string, Slice>
    const window: real
    const maxHits: int

    constructor (window: real, maxHits: int)
      ensures this.window == window && this.maxHits == maxHits && hits == map[]
    {
      this.window, this.maxHits := window, maxHits;
      hits := map[];
    }

    ghost function Buffers(): set<array<real>>
      reads this
    {
      BuffersOf(hits)
    }

    /** Lengths fit the arrays and no two keys share one. */
    ghost predicate Valid()
      reads this
    {
      Separate(hits)
    }

    ghost function View(): Hits
      reads this, Buffers()
      requires Valid()
    {
      ContentsOf(hits)
    }

    /** Moves the times after the cutoff to the front of the same array. */
    method Compact(s: Slice, cutoff: real) returns (m: nat)
      requires s.len <= s.buf.Length
      modifies s.buf
      ensures m <= s.len && s.buf[..m] == Kept(old(s.buf[..s.len]), cutoff)
    {
      m := 0;
      ghost var was := s.buf[..s.len];
      for i := 0 to s.len
        invariant m <= i && s.buf[..m] == Kept(was[..i], cutoff)
        invariant s.buf[i..s.len] == was[i..]
      {
        assert was[..i + 1][..i] == was[..i] && s.buf[i] == was[i];
        if s.buf[i] > cutoff {
          s.buf[m] := s.buf[i];
          m := m + 1;
        }
      }
      assert was[..s.len] == was;
    }

    /** Go's append: in place while there is room, else into a larger array. */
    method Append(s: Slice, t: real) returns (r: Slice)
      requires s.len <= s.buf.Length
      modifies s.buf
      ensures r.len == s.len + 1 <= r.buf.Length && r.buf[..r.len] == old(s.buf[..s.len]) + [t]
      ensures r.buf == s.buf || fresh(r.buf)
    {
      if s.len < s.buf.Length {
        s.buf[s.len] := t;
        r := Slice(s.buf, s.len + 1);
      } else {
        var larger := new real[2 * s.len + 1](_ => 0.0);
        for i := 0 to s.len
          invariant larger[..i] == s.buf[..i]
          invariant s.buf[..] == old(s.buf[..])
        {
          larger[i] := s.buf[i];
        }
        larger[s.len] := t;
        r := Slice(larger, s.len + 1);
      }
    }

    /** The key's new list: the times after the cutoff and the new stamp. */
    method Record(s: Slice, cutoff: real, stamp: real) returns (r: Slice)
      requires s.len <= s.buf.Length
      modifies s.buf
      ensures r.len <= r.buf.Length && r.buf[..r.len] == Kept(old(s.buf[..s.len]), cutoff) + [stamp]
      ensures r.buf == s.buf || fresh(r.buf)
    {
      hide Kept;
      var m := Compact(s, cutoff);
      r := Append(Slice(s.buf, m), stamp);
    }

    /** The slice the key has, or an empty one. */
    method SliceFor(key: string) returns (s: Slice)
      requires Valid()
      ensures s.len <= s.buf.Length && s.buf[..s.len] == TimesOf(View(), key)
      ensures Separate(hits - {key}) && s.buf !in BuffersOf(hits - {key})
      ensures s.buf in Buffers() || fresh(s.buf)
    {
      hide Separate, ContentsOf, TimesOf;
      ContentsWithout(hits, key);
      if key in hits {
        s := hits[key];
        SliceOf(hits, key);
      } else {
        NoSliceOf(hits, key);
        var none := new real[0];
        s := Slice(none, 0);
      }
    }

    method Allow(key: string, read: real, stamp: real) returns (ok: bool)
      requires Valid()
      modifies this, Buffers()
      ensures Valid() && fresh(Buffers() - old(Buffers()))
      ensures (View(), ok) == Step(old(View()), window, maxHits, key, read, stamp)
    {
      hide Kept, ContentsOf, Separate, TimesOf;
      ghost var before := View();
      ContentsWithout(hits, key);
      var s := SliceFor(key);
      assert ContentsOf(hits - {key}) == before - {key};
      var r := Record(s, read - window, stamp);
      assert ContentsOf(hits - {key}) == before - {key};
      SliceStored(hits, key, r);
      hits := hits[key := r];
      ok := r.len <= maxHits;
      assert View() == before[key := r.buf[..r.len]];
    }
  }

  // ---- Runs ----

  datatype Attempt = Attempt(key: string, read: real, stamp: real)

  /** The clock never runs backwards. */
  ghost predicate Monotone(tries: seq<Attempt>) {
    && (forall i :: 0 <= i < |tries| ==> tries[i].read <= tries[i].stamp)
    && (forall i, j :: 0 <= i < j < |tries| ==> tries[i].stamp <= tries[j].read)
  }

  function State(tries: seq<Attempt>, window: real, maxHits: int): Hits {
    if tries == [] then map[]
    else
      var n := |tries| - 1;
      Step(State(tries[..n], window, maxHits), window, maxHits, tries[n].key, tries[n].read, tries[n].stamp).0
  }

  /** Whether attempt `n` of the run is allowed. */
  predicate Allowed(tries: seq<Attempt>, n: nat, window: real, maxHits: int)
    requires n < |tries|
  {
    Step(State(tries[..n], window, maxHits), window, maxHits, tries[n].key, tries[n].read, tries[n].stamp).1
  }

  /** The stamps of all the key's attempts after a moment, allowed or not: what the whole history says. */
  function Since(tries: seq<Attempt>, key: string, moment: real): seq<real> {
    if tries == [] then []
    else
      var n := |tries| - 1;
      var rest := Since(tries[..n], key, moment);
      if tries[n].key == key && tries[n].stamp > moment then rest + [tries[n].stamp] else rest
  }

  lemma {:induction false} KeptSince(tries: seq<Attempt>, key: string, moment: real, later: real)
    requires moment <= later
    ensures Kept(Since(tries, key, moment), later) == Since(tries, key, later)
  {
    if tries != [] {
      var n := |tries| - 1;
      KeptSince(tries[..n], key, moment, later);
      KeptAppend(Since(tries[..n], key, moment), tries[n].stamp, later);
    }
  }

  lemma MonotonePrefix(tries: seq<Attempt>)
    requires Monotone(tries) && tries != []
    ensures var n := |tries| - 1; Monotone(tries[..n]) && (n > 0 ==> tries[n - 1].read <= tries[n].read)
  {
    var n := |tries| - 1;
    assert n > 0 ==> tries[n - 1].read <= tries[n - 1].stamp <= tries[n].read;
  }

  lemma StepTimes(m: Hits, a: Attempt, key: string, window: real, maxHits: int)
    ensures TimesOf(Step(m, window, maxHits, a.key, a.read, a.stamp).0, key) ==
            if a.key == key then Kept(TimesOf(m, key), a.read - window) + [a.stamp] else TimesOf(m, key)
  {
    hide Kept;
  }

  lemma TimesAfter(tries: seq<Attempt>, key: string, window: real, maxHits: int)
    requires tries != []
    ensures var n := |tries| - 1;
            var before := TimesOf(State(tries[..n], window, maxHits), key);
            TimesOf(State(tries, window, maxHits), key) ==
            if tries[n].key == key then Kept(before, tries[n].read - window) + [tries[n].stamp] else before
  {
    hide Kept, TimesOf, Step;
    StepTimes(State(tries[..|tries| - 1], window, maxHits), tries[|tries| - 1], key, window, maxHits);
  }

  /** For every key the store holds the history since the key's latest cutoff, no later than the last reading. */
  lemma {:induction false} StoredIsHistory(tries: seq<Attempt>, key: string, window: real, maxHits: int)
      returns (moment: real)
    requires window > 0.0 && Monotone(tries)
    ensures TimesOf(State(tries, window, maxHits), key) == Since(tries, key, moment)
    ensures tries != [] ==> moment <= tries[|tries| - 1].read - window
    decreases |tries|
  {
    if tries == [] {
      moment := 0.0;
    } else {
      var n := |tries| - 1;
      var rest, last := tries[..n], tries[n];
      TimesAfter(tries, key, window, maxHits);
      MonotonePrefix(tries);
      var cutoff := last.read - window;
      assert last.stamp > cutoff;
      hide State, TimesOf, Kept, Monotone, Step;
      moment := StoredIsHistory(rest, key, window, maxHits);
      if n == 0 {
        assert Since(rest, key, moment) == [] == Since(rest, key, cutoff);
        moment := cutoff;
      }
      if last.key == key {
        KeptSince(rest, key, moment, cutoff);
        assert Since(tries, key, cutoff) == Since(rest, key, cutoff) + [last.stamp];
        moment := cutoff;
      } else {
        assert Since(tries, key, moment) == Since(rest, key, moment);
      }
    }
  }

  /** An attempt is allowed exactly when the key's attempts in the window up to it, itself and denied ones
      included, number at most `maxHits`. */
  lemma AllowedIff(tries: seq<Attempt>, n: nat, window: real, maxHits: int)
    requires window > 0.0 && Monotone(tries) && n < |tries|
    ensures Allowed(tries, n, window, maxHits) <==>
            |Since(tries[..n + 1], tries[n].key, tries[n].read - window)| <= maxHits
  {
    var rest, last, moment := tries[..n], tries[n], tries[n].read - window;
    assert tries[..n + 1][..n] == rest;
    var earlier := StoredIsHistory(rest, last.key, window, maxHits);
    if n == 0 {
      assert Kept(TimesOf(State(rest, window, maxHits), last.key), moment) == [] == Since(rest, last.key, moment);
    } else {
      assert tries[n - 1].read <= last.read;
      KeptSince(rest, last.key, earlier, moment);
    }
  }

  /** Allowed attempts of the key stamped in the half-open window (from, from + window]. */
  function AllowedWithin(tries: seq<Attempt>, key: string, from: real, window: real, maxHits: int): nat {
    if tries == [] then 0
    else
      var n := |tries| - 1;
      AllowedWithin(tries[..n], key, from, window, maxHits) +
      if tries[n].key == key && from < tries[n].stamp <= from + window && Allowed(tries, n, window, maxHits)
      then 1 else 0
  }

  lemma {:induction false} AllowedAreSince(tries: seq<Attempt>, key: string, from: real, moment: real, window: real,
                                           maxHits: int)
    requires moment <= from
    ensures AllowedWithin(tries, key, from, window, maxHits) <= |Since(tries, key, moment)|
  {
    hide Allowed;
    if tries != [] {
      AllowedAreSince(tries[..|tries| - 1], key, from, moment, window, maxHits);
    }
  }

  /** However long the run, any window of that length contains at most `maxHits` allowed attempts per key. */
  lemma {:induction false} WindowBound(tries: seq<Attempt>, key: string, from: real, window: real, maxHits: nat)
    requires window > 0.0 && Monotone(tries)
    ensures AllowedWithin(tries, key, from, window, maxHits) <= maxHits
    decreases |tries|
  {
    if tries != [] {
      var n := |tries| - 1;
      if tries[n].key == key && from < tries[n].stamp <= from + window && Allowed(tries, n, window, maxHits) {
        AllowedIff(tries, n, window, maxHits);
        assert tries[..n + 1] == tries;
        AllowedAreSince(tries, key, from, tries[n].read - window, window, maxHits);
      } else {
        WindowBound(tries[..n], key, from, window, maxHits);
      }
    }
  }

  ghost predicate Sorted(s: seq<real>) {
    forall i, j :: 0 <= i < j < |s| ==> s[i] <= s[j]
  }

  lemma {:induction false} SinceBounded(tries: seq<Attempt>, key: string, moment: real, limit: real)
    requires forall i :: 0 <= i < |tries| ==> tries[i].stamp <= limit
    ensures forall t :: t in Since(tries, key, moment) ==> t <= limit
  {
    if tries != [] { SinceBounded(tries[..|tries| - 1], key, moment, limit); }
  }

  lemma {:induction false} SinceIsSorted(tries: seq<Attempt>, key: string, moment: real)
    requires Monotone(tries)
    ensures Sorted(Since(tries, key, moment))
  {
    if tries != [] {
      var n := |tries| - 1;
      SinceIsSorted(tries[..n], key, moment);
      forall i | 0 <= i < n ensures tries[i].stamp <= tries[n].stamp {
        assert tries[i].stamp <= tries[n].read;
      }
      SinceBounded(tries[..n], key, moment, tries[n].stamp);
      var rest := Since(tries[..n], key, moment);
      forall i | 0 <= i < |rest| ensures rest[i] <= tries[n].stamp {
        assert rest[i] in rest;
      }
      assert Since(tries, key, moment) == rest || Since(tries, key, moment) == rest + [tries[n].stamp];
    }
  }

  /** The stored times stay sorted. */
  lemma StoredTimesSorted(tries: seq<Attempt>, key: string, window: real, maxHits: int)
    requires window > 0.0 && Monotone(tries)
    ensures Sorted(TimesOf(State(tries, window, maxHits), key))
  {
    var moment := StoredIsHistory(tries, key, window, maxHits);
    SinceIsSorted(tries, key, moment);
  }

  // ---- Closed windows ----

  /** Allowed attempts of the key stamped in the closed interval [from, from + length]. */
  function AllowedClosed(tries: seq<Attempt>, key: string, from: real, length: real, window: real, maxHits: int): nat {
    if tries == [] then 0
    else
      var n := |tries| - 1;
      AllowedClosed(tries[..n], key, from, length, window, maxHits) +
      if tries[n].key == key && from <= tries[n].stamp <= from + length && Allowed(tries, n, window, maxHits)
      then 1 else 0
  }

  /** Two half-open windows, the second starting no later than the first ends, cover the closed interval. */
  lemma {:induction false} TwoWindowsCover(tries: seq<Attempt>, key: string, from: real, length: real, a: real, b: real,
                                           window: real, maxHits: int)
    requires a < from && b <= a + window && from + length <= b + window
    ensures AllowedClosed(tries, key, from, length, window, maxHits) <=
            AllowedWithin(tries, key, a, window, maxHits) + AllowedWithin(tries, key, b, window, maxHits)
  {
    hide Allowed;
    if tries != [] {
      TwoWindowsCover(tries[..|tries| - 1], key, from, length, a, b, window, maxHits);
    }
  }

  lemma {:induction false} OneWindowCovers(tries: seq<Attempt>, key: string, from: real, length: real, a: real,
                                           window: real, maxHits: int)
    requires a < from && from + length <= a + window
    ensures AllowedClosed(tries, key, from, length, window, maxHits) <= AllowedWithin(tries, key, a, window, maxHits)
  {
    hide Allowed;
    if tries != [] {
      OneWindowCovers(tries[..|tries| - 1], key, from, length, a, window, maxHits);
    }
  }

  /** A closed window of the limiter's own length contains at most twice `maxHits` allowed attempts per key. */
  lemma ClosedWindowBound(tries: seq<Attempt>, key: string, from: real, window: real, maxHits: nat)
    requires window > 0.0 && Monotone(tries)
    ensures AllowedClosed(tries, key, from, window, window, maxHits) <= 2 * maxHits
  {
    TwoWindowsCover(tries, key, from, window, from - window, from, window, maxHits);
    WindowBound(tries, key, from - window, window, maxHits);
    WindowBound(tries, key, from, window, maxHits);
  }

  /** `n` attempts at time 0 and `n` more one window later. */
  function TwoBursts(key: string, n: nat, window: real): (tries: seq<Attempt>)
    ensures |tries| == 2 * n
  {
    seq(2 * n, i requires 0 <= i < 2 * n => if i < n then Attempt(key, 0.0, 0.0) else Attempt(key, window, window))
  }

  lemma {:induction false} EarlyOnesAreOut(tries: seq<Attempt>, key: string, moment: real, early: nat)
    requires early <= |tries| && forall i :: 0 <= i < early ==> tries[i].stamp <= moment
    ensures |Since(tries, key, moment)| <= |tries| - early
  {
    if early < |tries| {
      EarlyOnesAreOut(tries[..|tries| - 1], key, moment, early);
    } else if tries != [] {
      EarlyOnesAreOut(tries[..|tries| - 1], key, moment, early - 1);
    }
  }

  lemma BurstsAllowed(key: string, maxHits: nat, window: real, i: nat)
    requires window > 0.0 && i < 2 * maxHits
    ensures Allowed(TwoBursts(key, maxHits, window), i, window, maxHits)
  {
    hide Allowed;
    var tries := TwoBursts(key, maxHits, window);
    AllowedIff(tries, i, window, maxHits);
    EarlyOnesAreOut(tries[..i + 1], key, tries[i].read - window, if i < maxHits then 0 else maxHits);
  }

  lemma {:induction false} AllCounted(tries: seq<Attempt>, key: string, from: real, length: real, window: real,
                                      maxHits: int)
    requires forall i :: 0 <= i < |tries| ==>
      tries[i].key == key && from <= tries[i].stamp <= from + length && Allowed(tries, i, window, maxHits)
    ensures AllowedClosed(tries, key, from, length, window, maxHits) == |tries|
  {
    if tries != [] {
      var rest := tries[..|tries| - 1];
      forall i | 0 <= i < |rest| ensures Allowed(rest, i, window, maxHits) {
        assert rest[..i] == tries[..i];
      }
      AllCounted(rest, key, from, length, window, maxHits);
    }
  }

  /** The bound is attained, whatever the limit and the window. */
  lemma ClosedWindowBoundIsTight(key: string, window: real, maxHits: nat)
    requires window > 0.0
    ensures var tries := TwoBursts(key, maxHits, window);
            Monotone(tries) && AllowedClosed(tries, key, 0.0, window, window, maxHits) == 2 * maxHits
  {
    hide Allowed;
    var tries := TwoBursts(key, maxHits, window);
    forall i | 0 <= i < |tries| ensures Allowed(tries, i, window, maxHits) {
      BurstsAllowed(key, maxHits, window, i);
    }
    AllCounted(tries, key, 0.0, window, window, maxHits);
  }

  /** In no run does a closed interval of this length contain more than `maxHits` allowed attempts of a key. */
  ghost predicate BoundsClosed(length: real, window: real, maxHits: nat) {
    forall tries, key, from :: Monotone(tries) ==> AllowedClosed(tries, key, from, length, window, maxHits) <= maxHits
  }

  /** Closed intervals obey the limit exactly when they are shorter than the window. */
  lemma ClosedWindowObeysLimitIff(length: real, window: real, maxHits: nat)
    requires window > 0.0 && maxHits > 0
    ensures BoundsClosed(length, window, maxHits) <==> length < window
  {
    hide Monotone, AllowedClosed;
    if length < window {
      forall tries, key, from | Monotone(tries)
        ensures AllowedClosed(tries, key, from, length, window, maxHits) <= maxHits
      {
        OneWindowCovers(tries, key, from, length, from + length - window, window, maxHits);
        WindowBound(tries, key, from + length - window, window, maxHits);
      }
    } else {
      var tries := TwoBursts("", maxHits, window);
      forall i | 0 <= i < |tries| ensures Allowed(tries, i, window, maxHits) {
        BurstsAllowed("", maxHits, window, i);
      }
      ClosedWindowBoundIsTight("", window, maxHits);
      AllCounted(tries, "", 0.0, length, window, maxHits);
    }
  }
}
