/** Linear partitional analysis of build/lib/comptools/parsepy.py (the same
    code is in parsepy.py): linvectors_list, which keeps for every pitch of a
    melody the earlier sounding pitches more than a whole tone away, and
    linear_partitions, which labels each step of that list. */
module ParsepyLinear {
  import opened PyBase

  /** The elements of prev more than 2 semitones from pitch, in order. */
  function Far(prev: seq<int>, pitch: int): (r: seq<int>)
    ensures |r| <= |prev|
    ensures forall k :: 0 <= k < |r| ==> Abs(pitch - r[k]) > 2
  {
    if prev == [] then []
    else
      var last := prev[|prev| - 1];
      Far(prev[..|prev| - 1], pitch) + (if Abs(pitch - last) > 2 then [last] else [])
  }

  /** Every element Far keeps comes from prev: element k is prev[m]. */
  lemma {:induction false} FarFrom(prev: seq<int>, pitch: int, k: int) returns (m: int)
    requires 0 <= k < |Far(prev, pitch)|
    ensures 0 <= m < |prev| && Far(prev, pitch)[k] == prev[m]
  {
    var n := |prev| - 1;
    var init := prev[..n];
    var front := Far(init, pitch);
    assert Far(prev, pitch) == front + (if Abs(pitch - prev[n]) > 2 then [prev[n]] else []);
    if k < |front| {
      m := FarFrom(init, pitch, k);
      assert init[m] == prev[m];
    } else {
      m := n;
    }
  }

  /** The vector after prev for a new pitch: the far elements of prev, then
      the pitch. */
  function NextLinvector(prev: seq<int>, pitch: int): seq<int>
  {
    Far(prev, pitch) + [pitch]
  }

  /** v ends with pitch and all its other entries are more than 2 semitones
      from it. */
  predicate HeldAt(v: seq<int>, pitch: int)
  {
    |v| >= 1 && v[|v| - 1] == pitch && forall k :: 0 <= k < |v| - 1 ==> Abs(v[k] - pitch) > 2
  }

  /** The list linvectors_list builds for a non-empty melody: one vector per
      pitch, each built from the one before. */
  function Linvectors(pitches: seq<int>): (r: seq<seq<int>>)
    requires |pitches| >= 1
    ensures |r| == |pitches| && forall i :: 0 <= i < |r| ==> |r[i]| >= 1
  {
    if |pitches| == 1 then [[pitches[0]]]
    else
      var v := Linvectors(pitches[..|pitches| - 1]);
      v + [NextLinvector(v[|v| - 1], pitches[|pitches| - 1])]
  }

  /** The next vector ends with the pitch, every other entry more than 2
      semitones from it. */
  lemma NextHeld(prev: seq<int>, pitch: int)
    ensures HeldAt(NextLinvector(prev, pitch), pitch)
  {
    var far := Far(prev, pitch);
    var next := NextLinvector(prev, pitch);
    assert forall k :: 0 <= k < |far| ==> next[k] == far[k];
  }

  /** The first vector holds the first pitch alone. */
  lemma {:induction false} FirstVector(pitches: seq<int>)
    requires |pitches| >= 1
    ensures Linvectors(pitches)[0] == [pitches[0]]
  {
    if |pitches| > 1 {
      var init := pitches[..|pitches| - 1];
      FirstVector(init);
    }
  }

  /** Vector i ends with pitch i, and its other entries are more than 2
      semitones from it. */
  lemma LinvectorsHeld(pitches: seq<int>, i: int)
    requires 0 <= i < |pitches|
    ensures HeldAt(Linvectors(pitches)[i], pitches[i])
  {
    if i == 0 {
      FirstVector(pitches);
    } else {
      NextStep(pitches, i);
      NextHeld(Linvectors(pitches)[i - 1], pitches[i]);
    }
  }

  /** The body of linvectors_list's loop: the elements of the last vector
      not within 2 semitones of the pitch, then the pitch. */
  method NextFrom(prev: seq<int>, pitch: int) returns (next: seq<int>)
    ensures next == NextLinvector(prev, pitch)
  {
    next := [];
    for e := 0 to |prev|
      invariant next == Far(prev[..e], pitch)
    {
      var element := prev[e];
      assert prev[..e + 1] == prev[..e] + [element];
      if Abs(pitch - element) <= 2 {
      } else {
        next := next + [element];
      }
    }
    assert prev[..|prev|] == prev;
    next := next + [pitch];
  }

  /** linvectors_list(pitches): `pitches[0]` raises IndexError on an empty
      melody; otherwise one vector per pitch, each built from the one before. */
  method LinvectorsList(pitches: seq<int>) returns (r: Result<seq<seq<int>>>)
    ensures |pitches| == 0 <==> r == Err(IndexError)
    ensures |pitches| >= 1 ==> r == Ok(Linvectors(pitches))
  {
    if |pitches| == 0 {
      return Err(IndexError);
    }
    var result := [[pitches[0]]];
    assert [pitches[0]] == pitches[..1];
    for i := 1 to |pitches|
      invariant result == Linvectors(pitches[..i])
    {
      var next := NextFrom(result[|result| - 1], pitches[i]);
      LinvectorsSnoc(pitches, i);
      result := result + [next];
    }
    assert pitches[..|pitches|] == pitches;
    r := Ok(result);
  }

  /** One more pitch adds one vector, built from the last one. */
  lemma LinvectorsSnoc(pitches: seq<int>, i: int)
    requires 1 <= i < |pitches|
    ensures Linvectors(pitches[..i + 1]) ==
              Linvectors(pitches[..i]) + [NextLinvector(Linvectors(pitches[..i])[i - 1], pitches[i])]
  {
    assert pitches[..i + 1][..i] == pitches[..i];
  }

  lemma LinvectorsLast(pitches: seq<int>)
    requires |pitches| >= 2
    ensures var lv := Linvectors(pitches[..|pitches| - 1]);
            Linvectors(pitches) == lv + [NextLinvector(lv[|lv| - 1], pitches[|pitches| - 1])]
  {
  }

  /** Every entry of vector i is a pitch heard up to pitch i. */
  lemma LinvectorEntries(pitches: seq<int>, i: int, k: int)
    requires 0 <= i < |pitches| && 0 <= k < |Linvectors(pitches)[i]|
    ensures Linvectors(pitches)[i][k] in pitches[..i + 1]
  {
    var j := LinvectorSource(pitches, i, k);
    assert pitches[..i + 1][j] == pitches[j];
  }

  /** The position j <= i of the pitch that entry k of vector i repeats. */
  lemma {:induction false} LinvectorSource(pitches: seq<int>, i: int, k: int) returns (j: int)
    requires 0 <= i < |pitches| && 0 <= k < |Linvectors(pitches)[i]|
    ensures 0 <= j <= i && Linvectors(pitches)[i][k] == pitches[j]
    decreases |pitches|, 1
  {
    var n := |pitches| - 1;
    if |pitches| == 1 {
      assert Linvectors(pitches) == [[pitches[0]]];
      j := 0;
    } else if i == n {
      j := LastSource(pitches, k);
    } else {
      var init := pitches[..n];
      LinvectorsLast(pitches);
      assert Linvectors(pitches)[i] == Linvectors(init)[i];
      j := LinvectorSource(init, i, k);
      assert init[j] == pitches[j];
    }
  }

  /** The same for the last vector: its entries are the pitch itself or
      entries of the vector before. */
  lemma {:induction false} LastSource(pitches: seq<int>, k: int) returns (j: int)
    requires |pitches| >= 2 && 0 <= k < |Linvectors(pitches)[|pitches| - 1]|
    ensures 0 <= j < |pitches| && Linvectors(pitches)[|pitches| - 1][k] == pitches[j]
    decreases |pitches|, 0
  {
    var n := |pitches| - 1;
    var init := pitches[..n];
    var prev := Linvectors(init)[n - 1];
    var far := Far(prev, pitches[n]);
    LinvectorsLast(pitches);
    assert Linvectors(pitches)[n] == far + [pitches[n]];
    if k < |far| {
      var m := FarFrom(prev, pitches[n], k);
      j := LinvectorSource(init, n - 1, m);
      assert init[j] == pitches[j];
    } else {
      j := n;
    }
  }

  // ---------------------------------------------------------------------
  // linear_partitions
  // ---------------------------------------------------------------------

  /** The label of the step from vector prev to vector cur: "R" repeats the
      vector; at equal length "G" when the new pitch was already held, "P"
      when it is close to the previous pitch, "A" otherwise; "N" when the
      vector grows; "C" or "F" when it shrinks, by the same closeness. */
  function Label(prev: seq<int>, cur: seq<int>): string
    requires |prev| >= 1 && |cur| >= 1
  {
    if cur == prev then "R"
    else if |cur| == |prev| then
      if cur[|cur| - 1] in prev[..|prev| - 1] then "G"
      else if Abs(cur[|cur| - 1] - prev[|prev| - 1]) < 3 then "P"
      else "A"
    else if |cur| > |prev| then "N"
    else if Abs(cur[|cur| - 1] - prev[|prev| - 1]) < 3 then "C"
    else "F"
  }

  /** linear_partitions(pitches): "N" for the first pitch, then one label per
      step of the linvectors; an empty melody raises IndexError inside
      linvectors_list. */
  method LinearPartitions(pitches: seq<int>) returns (r: Result<seq<string>>)
    ensures |pitches| == 0 <==> r == Err(IndexError)
    ensures |pitches| >= 1 ==> r.Ok? && |r.value| == |pitches| && r.value[0] == "N"
    ensures |pitches| >= 1 ==> var lv := Linvectors(pitches);
              forall i :: 0 <= i < |pitches| - 1 ==> r.value[i + 1] == Label(lv[i], lv[i + 1])
  {
    var lv := LinvectorsList(pitches);
    if lv.Err? {
      return Err(lv.error);
    }
    var linvectors := lv.value;
    var result := ["N"];
    for i := 1 to |linvectors|
      invariant |result| == i && result[0] == "N"
      invariant forall k :: 0 <= k < i - 1 ==> result[k + 1] == Label(linvectors[k], linvectors[k + 1])
    {
      result := result + [Label(linvectors[i - 1], linvectors[i])];
    }
    r := Ok(result);
  }

  /** Every element of prev is more than 2 semitones from pitch. */
  predicate AllFar(prev: seq<int>, pitch: int)
  {
    forall k :: 0 <= k < |prev| ==> Abs(pitch - prev[k]) > 2
  }

  /** Far keeps a list whole when all of it is far from the pitch. */
  lemma {:induction false} FarKeepsAll(prev: seq<int>, pitch: int)
    requires AllFar(prev, pitch)
    ensures Far(prev, pitch) == prev
  {
    if prev != [] {
      var init := prev[..|prev| - 1];
      var last := prev[|prev| - 1];
      AllFarInit(prev, pitch);
      assert Far(prev, pitch) == Far(init, pitch) + [last];
      FarKeepsAll(init, pitch);
      assert prev == init + [last];
    }
  }

  /** The front of an all-far list is all far. */
  lemma AllFarInit(prev: seq<int>, pitch: int)
    requires |prev| >= 1 && AllFar(prev, pitch)
    ensures AllFar(prev[..|prev| - 1], pitch) && Abs(pitch - prev[|prev| - 1]) > 2
  {
    var init := prev[..|prev| - 1];
    assert forall k :: 0 <= k < |init| ==> init[k] == prev[k];
  }

  /** Far drops something exactly when some element is close. */
  lemma {:induction false} FarShorter(prev: seq<int>, pitch: int)
    ensures |Far(prev, pitch)| == |prev| <==> AllFar(prev, pitch)
  {
    if prev != [] {
      var init := prev[..|prev| - 1];
      FarShorter(init, pitch);
      assert forall k :: 0 <= k < |init| ==> init[k] == prev[k];
    }
  }

  /** A new pitch repeats the vector exactly when it is the pitch the
      vector ends with. */
  lemma RepeatStep(prev: seq<int>, q: int, pitch: int)
    requires HeldAt(prev, q)
    ensures Label(prev, NextLinvector(prev, pitch)) == "R" <==> pitch == q
  {
    var cur := NextLinvector(prev, pitch);
    if pitch == q {
      var front := prev[..|prev| - 1];
      assert prev == front + [q];
      FarKeepsAll(front, q);
      assert Far(prev, q) == front;
    } else {
      assert cur[|cur| - 1] != prev[|prev| - 1];
    }
  }

  /** A step is labelled "R" exactly when the melody repeats the pitch. */
  lemma RepeatLabel(pitches: seq<int>, i: int)
    requires 1 <= i < |pitches|
    ensures Label(Linvectors(pitches)[i - 1], Linvectors(pitches)[i]) == "R" <==> pitches[i] == pitches[i - 1]
  {
    NextStep(pitches, i);
    LinvectorsHeld(pitches, i - 1);
    RepeatStep(Linvectors(pitches)[i - 1], pitches[i - 1], pitches[i]);
  }

  /** The vector grows exactly when nothing in it is close to the pitch. */
  lemma NewStep(prev: seq<int>, pitch: int)
    requires |prev| >= 1
    ensures Label(prev, NextLinvector(prev, pitch)) == "N" <==> AllFar(prev, pitch)
  {
    FarShorter(prev, pitch);
  }

  /** A step is labelled "N" exactly when no pitch of the previous vector is
      within 2 semitones of the new pitch. */
  lemma NewLabel(pitches: seq<int>, i: int)
    requires 1 <= i < |pitches|
    ensures Label(Linvectors(pitches)[i - 1], Linvectors(pitches)[i]) == "N" <==> AllFar(Linvectors(pitches)[i - 1], pitches[i])
  {
    var lv := Linvectors(pitches);
    NextStep(pitches, i);
    assert lv[i] == NextLinvector(lv[i - 1], pitches[i]);
    NewStep(lv[i - 1], pitches[i]);
  }

  /** Vector i is built from vector i - 1 and pitch i. */
  lemma {:induction false} NextStep(pitches: seq<int>, i: int)
    requires 1 <= i < |pitches|
    ensures Linvectors(pitches)[i] == NextLinvector(Linvectors(pitches)[i - 1], pitches[i])
    decreases |pitches|
  {
    var n := |pitches| - 1;
    var init := pitches[..n];
    var lv := Linvectors(init);
    var all := Linvectors(pitches);
    assert all == lv + [NextLinvector(lv[n - 1], pitches[n])];
    if i < n {
      NextStep(init, i);
      assert all[i] == lv[i] && all[i - 1] == lv[i - 1] && init[i] == pitches[i];
    } else {
      assert all[i - 1] == lv[n - 1];
    }
  }
}
