/** make_rtm of comptools/abjadtools.py: an OpenMusic rhythm tree rewritten
    with new numbers, each alphanumeric character of the old tree replaced by
    the next number of the data. */
module Abjadtools {
  import opened PyBase
  import opened PyStr

  /** The number of alphanumeric characters in s: the data items a rewrite
      of s draws. */
  function AlnumCount(s: string): (n: nat)
    ensures n <= |s|
  {
    if s == [] then 0 else AlnumCount(s[..|s| - 1]) + (if IsAlnum(s[|s| - 1]) then 1 else 0)
  }

  /** The text the loop over s appends: each alphanumeric character becomes
      str() of the next data item, any other character is copied. Running out
      of data raises StopIteration. */
  function Rewrite(s: string, data: seq<int>): Result<string>
  {
    if s == [] then Ok([])
    else
      var c := s[|s| - 1];
      match Rewrite(s[..|s| - 1], data)
      case Err(e) => Err(e)
      case Ok(p) =>
        if !IsAlnum(c) then Ok(p + [c])
        else
          var n := AlnumCount(s[..|s| - 1]);
          if n < |data| then Ok(p + IntToString(data[n])) else Err(StopIteration)
  }

  /** `old_rtm[4:]`: everything after the first four characters. */
  function Tail4(s: string): (t: string)
    ensures |s| >= 4 ==> t == s[4..]
    ensures |s| < 4 ==> t == []
  {
    if |s| >= 4 then s[4..] else []
  }

  /** make_rtm(old_rtm, new_data): "(1 (" followed by the rewrite of
      old_rtm[4:], or StopIteration when the data runs out. The data is
      taken to be integers, the numbers a rhythm tree holds; Python would
      splice in str() of an item of any type. */
  method MakeRtm(oldRtm: string, newData: seq<int>) returns (r: Result<string>)
    ensures r.Ok? <==> Rewrite(Tail4(oldRtm), newData).Ok?
    ensures r.Ok? ==> r.value == "(1 (" + Rewrite(Tail4(oldRtm), newData).value
    ensures r.Err? ==> r.error == StopIteration
  {
    r := RewriteOnto("(1 (", Tail4(oldRtm), newData);
  }

  /** The loop of make_rtm: starting from head, append the rewrite of each
      character of tail in turn, drawing the next data item for each
      alphanumeric one. */
  method RewriteOnto(head: string, tail: string, data: seq<int>) returns (r: Result<string>)
    ensures r.Ok? <==> Rewrite(tail, data).Ok?
    ensures r.Ok? ==> r.value == head + Rewrite(tail, data).value
    ensures r.Err? ==> r.error == StopIteration
  {
    var newRtm := head;
    var it := 0;
    ghost var body: string := [];
    assert tail[..0] == [];
    for i := 0 to |tail|
      invariant Rewrite(tail[..i], data) == Ok(body)
      invariant newRtm == head + body
      invariant it == AlnumCount(tail[..i])
    {
      var x := tail[i];
      if IsAlnum(x) {
        if it >= |data| {
          RanOut(tail, i, data);
          return Err(StopIteration);
        }
        var w := IntToString(data[it]);
        StepAlnum(tail, i, data, body);
        newRtm := newRtm + w;
        body := body + w;
        it := it + 1;
      } else {
        StepOther(tail, i, data, body);
        newRtm := newRtm + [x];
        body := body + [x];
      }
    }
    assert tail[..|tail|] == tail;
    r := Ok(newRtm);
  }

  /** One more character of s: the rewrite of the longer prefix from the
      rewrite of the shorter one. */
  lemma RewriteStep(s: string, i: nat, data: seq<int>)
    requires i < |s| && Rewrite(s[..i], data).Ok?
    ensures AlnumCount(s[..i + 1]) == AlnumCount(s[..i]) + (if IsAlnum(s[i]) then 1 else 0)
    ensures !IsAlnum(s[i]) ==> Rewrite(s[..i + 1], data) == Ok(Rewrite(s[..i], data).value + [s[i]])
    ensures IsAlnum(s[i]) && AlnumCount(s[..i]) < |data| ==>
              Rewrite(s[..i + 1], data) == Ok(Rewrite(s[..i], data).value + IntToString(data[AlnumCount(s[..i])]))
    ensures IsAlnum(s[i]) && AlnumCount(s[..i]) >= |data| ==> Rewrite(s[..i + 1], data).Err?
  {
    assert s[..i + 1][..i] == s[..i];
  }

  /** An alphanumeric character with data left: its numeral is appended. */
  lemma StepAlnum(s: string, i: nat, data: seq<int>, p: string)
    requires i < |s| && Rewrite(s[..i], data) == Ok(p) && IsAlnum(s[i]) && AlnumCount(s[..i]) < |data|
    ensures Rewrite(s[..i + 1], data) == Ok(p + IntToString(data[AlnumCount(s[..i])]))
    ensures AlnumCount(s[..i + 1]) == AlnumCount(s[..i]) + 1
  {
    RewriteStep(s, i, data);
  }

  /** Any other character is copied. */
  lemma StepOther(s: string, i: nat, data: seq<int>, p: string)
    requires i < |s| && Rewrite(s[..i], data) == Ok(p) && !IsAlnum(s[i])
    ensures Rewrite(s[..i + 1], data) == Ok(p + [s[i]])
    ensures AlnumCount(s[..i + 1]) == AlnumCount(s[..i])
  {
    RewriteStep(s, i, data);
  }

  /** An alphanumeric character with no data left ends the whole rewrite in
      StopIteration. */
  lemma RanOut(s: string, i: nat, data: seq<int>)
    requires i < |s| && Rewrite(s[..i], data).Ok? && IsAlnum(s[i]) && AlnumCount(s[..i]) >= |data|
    ensures Rewrite(s, data) == Err(StopIteration)
  {
    RewriteStep(s, i, data);
    ErrPersists(s, i + 1, data);
    RewriteErr(s, data);
  }

  /** Once a prefix of s has run out of data, so has s. */
  lemma {:induction false} ErrPersists(s: string, j: nat, data: seq<int>)
    requires j <= |s| && Rewrite(s[..j], data).Err?
    ensures Rewrite(s, data).Err?
    decreases |s| - j
  {
    if j < |s| {
      var init := s[..|s| - 1];
      assert init[..j] == s[..j];
      ErrPersists(init, j, data);
    } else {
      assert s[..j] == s;
    }
  }

  /** The only error is StopIteration. */
  lemma {:induction false} RewriteErr(s: string, data: seq<int>)
    ensures Rewrite(s, data).Err? ==> Rewrite(s, data).error == StopIteration
  {
    if s != [] {
      RewriteErr(s[..|s| - 1], data);
    }
  }

  /** The rewrite succeeds exactly when there are at least as many data items
      as alphanumeric characters; otherwise it raises StopIteration. */
  lemma {:induction false} RewriteOk(s: string, data: seq<int>)
    ensures Rewrite(s, data).Ok? <==> AlnumCount(s) <= |data|
    ensures Rewrite(s, data).Err? ==> Rewrite(s, data).error == StopIteration
  {
    RewriteErr(s, data);
    if s != [] {
      var init := s[..|s| - 1];
      RewriteOk(init, data);
    }
  }

  /** The characters of s that are not alphanumeric, in order. */
  function Kept(s: string): string
  {
    if s == [] then [] else Kept(s[..|s| - 1]) + (if IsAlnum(s[|s| - 1]) then [] else [s[|s| - 1]])
  }

  /** The alphanumeric characters of s, in order. */
  function AlnumOf(s: string): string
  {
    if s == [] then [] else AlnumOf(s[..|s| - 1]) + (if IsAlnum(s[|s| - 1]) then [s[|s| - 1]] else [])
  }

  /** str() of the first n data items, written one after the other. */
  function Substituted(data: seq<int>, n: nat): string
    requires n <= |data|
  {
    if n == 0 then [] else Substituted(data, n - 1) + IntToString(data[n - 1])
  }

  lemma {:induction false} KeptAppend(a: string, b: string)
    ensures Kept(a + b) == Kept(a) + Kept(b)
    ensures AlnumOf(a + b) == AlnumOf(a) + AlnumOf(b)
  {
    if b != [] {
      var b' := b[..|b| - 1];
      assert (a + b)[..|a + b| - 1] == a + b';
      KeptAppend(a, b');
    } else {
      assert a + b == a;
    }
  }

  /** A numeral of a non-negative number is all digits. */
  lemma {:induction false} DigitsOnly(s: string)
    requires AllDigits(s)
    ensures Kept(s) == [] && AlnumOf(s) == s
  {
    if s != [] {
      DigitsOnly(s[..|s| - 1]);
    }
  }

  /** The numeral of a non-negative data item adds no kept character and is
      all alphanumeric. */
  lemma NumeralParts(p: string, d: int)
    requires d >= 0
    ensures Kept(p + IntToString(d)) == Kept(p)
    ensures AlnumOf(p + IntToString(d)) == AlnumOf(p) + IntToString(d)
  {
    assert IntToString(d) == NatToString(d);
    KeptAppend(p, IntToString(d));
    DigitsOnly(IntToString(d));
  }

  /** A copied character is kept and adds nothing alphanumeric. */
  lemma CopiedParts(p: string, c: char)
    requires !IsAlnum(c)
    ensures Kept(p + [c]) == Kept(p) + [c]
    ensures AlnumOf(p + [c]) == AlnumOf(p)
  {
    KeptAppend(p, [c]);
    assert [c][..0] == [];
  }

  /** The tree keeps its shape: with non-negative data the rewrite has the
      same non-alphanumeric characters, in the same order, and its
      alphanumeric characters are exactly the numerals of the data items
      drawn, in order. */
  lemma {:induction false} RewriteParts(s: string, data: seq<int>, t: string)
    requires Rewrite(s, data) == Ok(t)
    requires forall k :: 0 <= k < |data| ==> data[k] >= 0
    ensures AlnumCount(s) <= |data|
    ensures Kept(t) == Kept(s)
    ensures AlnumOf(t) == Substituted(data, AlnumCount(s))
  {
    RewriteOk(s, data);
    if s != [] {
      var init := s[..|s| - 1];
      var c := s[|s| - 1];
      RewriteOk(init, data);
      var p := Rewrite(init, data).value;
      RewriteParts(init, data, p);
      if IsAlnum(c) {
        var n := AlnumCount(init);
        assert t == p + IntToString(data[n]);
        NumeralParts(p, data[n]);
      } else {
        assert t == p + [c];
        CopiedParts(p, c);
      }
    }
  }

  /** With single-digit data the rewrite is a character-for-character
      substitution: same length, every other character in place, and the
      i-th character, when alphanumeric, replaced by the digit of the data
      item whose turn it is. */
  lemma {:induction false} SingleDigitShape(s: string, data: seq<int>, t: string)
    requires Rewrite(s, data) == Ok(t)
    requires forall k :: 0 <= k < |data| ==> 0 <= data[k] < 10
    ensures |t| == |s|
    ensures forall i :: 0 <= i < |s| && !IsAlnum(s[i]) ==> t[i] == s[i]
    ensures forall i :: 0 <= i < |s| && IsAlnum(s[i]) ==>
              AlnumCount(s[..i]) < |data| && t[i] == DigitChar(data[AlnumCount(s[..i])])
  {
    if s != [] {
      var init := s[..|s| - 1];
      var p := Rewrite(init, data).value;
      SingleDigitShape(init, data, p);
      assert forall i :: 0 <= i < |init| ==> init[..i] == s[..i] && init[i] == s[i];
    }
  }
}
