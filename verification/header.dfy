/** The header resolver, filter_duplicate_headers: the comma-separated channel
    header is reduced to its distinct base names, in first-occurrence order,
    with an occurrence count per name. The decoders use that count as the
    channel's byte width: the logger writes one header token per byte. */
module Header {
  import opened Common
  import opened Text

  /** A base name: strip whitespace, strip NULs at both ends, strip the
      trailing digits, strip whitespace again. */
  function BaseName(token: string): string
  {
    Trim(TrimEnd(Trim(Trim(token, IsSpace), IsNul), IsDigit), IsSpace)
  }

  /** The process_benji2_motec.py variant, which leaves NULs in place. */
  function BaseNameKeepNul(token: string): string
  {
    Trim(TrimEnd(Trim(token, IsSpace), IsDigit), IsSpace)
  }

  /** The base name of one token, by either copy of the resolver; a token
      without commas gives a base name without commas and without surrounding
      whitespace. */
  function BaseOf(token: string, keepNul: bool): (b: string)
    ensures ',' !in token ==> ',' !in b && Trimmed(b, IsSpace)
  {
    if ',' !in token then BaseNameShape(token, keepNul); BaseOfUnchecked(token, keepNul)
    else BaseOfUnchecked(token, keepNul)
  }

  function BaseOfUnchecked(token: string, keepNul: bool): string
  {
    if keepNul then BaseNameKeepNul(token) else BaseName(token)
  }

  /** The base name of every comma-separated token, in order. */
  function Bases(header: string, keepNul: bool): (bs: seq<string>)
    ensures |bs| == |Split(header, ',')| >= 1
    ensures forall i :: 0 <= i < |bs| ==> ',' !in bs[i] && Trimmed(bs[i], IsSpace)
  {
    var tokens := Split(header, ',');
    seq(|tokens|, i requires 0 <= i < |tokens| => BaseOf(tokens[i], keepNul))
  }

  predicate Distinct(s: seq<string>)
  {
    forall i, j :: 0 <= i < j < |s| ==> s[i] != s[j]
  }

  /** The state of the resolver's loop: the `filtered` list and the
      `base_counts` dictionary. */
  datatype Tally = Tally(order: seq<string>, counts: map<string, nat>)

  /** The loop state keeps every seen name once in `filtered` and exactly the
      seen names as dictionary keys. */
  ghost predicate WellFormed(t: Tally)
  {
    Distinct(t.order) && forall b :: b in t.counts <==> b in t.order
  }

  /** One iteration of the resolver's loop: a name seen for the first time is
      appended with count 1, a name seen before has its count raised. */
  function Step(t: Tally, b: string): Tally
  {
    if b !in t.counts then Tally(t.order + [b], t.counts[b := 1])
    else Tally(t.order, t.counts[b := t.counts[b] + 1])
  }

  /** The resolver's loop over the base names, from the empty state. */
  function TallyBases(bases: seq<string>): (t: Tally)
    ensures WellFormed(t)
    ensures forall b :: b in t.order <==> b in bases
    ensures forall b :: b in t.counts ==> t.counts[b] == multiset(bases)[b] >= 1
    decreases |bases|
  {
    if |bases| == 0 then Tally([], map[])
    else
      var prefix := bases[..|bases| - 1];
      var b := bases[|bases| - 1];
      assert bases == prefix + [b];
      Step(TallyBases(prefix), b)
  }

  /** [base_counts[base] for base in filtered]. */
  function CountList(order: seq<string>, counts: map<string, nat>): (r: seq<nat>)
    requires forall i :: 0 <= i < |order| ==> order[i] in counts
    ensures |r| == |order|
    ensures forall i :: 0 <= i < |order| ==> r[i] == counts[order[i]]
  {
    seq(|order|, i requires 0 <= i < |order| => counts[order[i]])
  }

  /** The canonical names and their counts, as two parallel lists. */
  datatype Resolved = Resolved(names: seq<string>, counts: seq<nat>)

  /** The resolver's result for a list of base names: each distinct name once,
      with the number of times it occurs. */
  function Resolve(bases: seq<string>): (r: Resolved)
    ensures |r.names| == |r.counts|
    ensures |bases| >= 1 ==> |r.names| >= 1
    ensures Distinct(r.names)
    ensures forall b :: b in r.names <==> b in bases
    ensures forall i :: 0 <= i < |r.names| ==> r.counts[i] == multiset(bases)[r.names[i]] >= 1
    ensures Sum(r.counts) == |bases|
  {
    var t := TallyBases(bases);
    TallySum(bases);
    if |bases| >= 1 then
      assert bases[0] in t.order;
      Resolved(t.order, CountList(t.order, t.counts))
    else
      Resolved(t.order, CountList(t.order, t.counts))
  }

  /** The counts add up to the number of tokens: every token is counted once. */
  lemma {:induction false} TallySum(bases: seq<string>)
    ensures var t := TallyBases(bases); Sum(CountList(t.order, t.counts)) == |bases|
    decreases |bases|
  {
    if |bases| > 0 {
      var prefix := bases[..|bases| - 1];
      TallySum(prefix);
      StepSum(TallyBases(prefix), bases[|bases| - 1]);
    }
  }

  /** Each iteration adds exactly one to the total count. */
  lemma StepSum(t: Tally, b: string)
    requires WellFormed(t)
    ensures var t' := Step(t, b);
      WellFormed(t') && Sum(CountList(t'.order, t'.counts)) == Sum(CountList(t.order, t.counts)) + 1
  {
    if b !in t.counts {
      StepSumNew(t, b);
    } else {
      StepSumSeen(t, b);
    }
  }

  lemma StepSumNew(t: Tally, b: string)
    requires WellFormed(t) && b !in t.counts
    ensures var t' := Step(t, b);
      WellFormed(t') && Sum(CountList(t'.order, t'.counts)) == Sum(CountList(t.order, t.counts)) + 1
  {
    var t' := Step(t, b);
    var before := CountList(t.order, t.counts);
    assert forall i :: 0 <= i < |t.order| ==> t.order[i] != b;
    assert CountList(t'.order, t'.counts) == before + [1];
    SumAppend(before, 1);
  }

  lemma StepSumSeen(t: Tally, b: string)
    requires WellFormed(t) && b in t.counts
    ensures var t' := Step(t, b);
      WellFormed(t') && Sum(CountList(t'.order, t'.counts)) == Sum(CountList(t.order, t.counts)) + 1
  {
    var t' := Tally(t.order, t.counts[b := t.counts[b] + 1]);
    assert Step(t, b) == t';
    assert WellFormed(t');
    var j :| 0 <= j < |t.order| && t.order[j] == b;
    var before := CountList(t.order, t.counts);
    CountListBump(t.order, t.counts, j);
    assert before[j] == t.counts[b];
    assert CountList(t'.order, t'.counts) == before[j := before[j] + 1];
    SumIncrement(before, j);
  }

  /** Raising one name's count raises exactly its entry in the count list. */
  lemma CountListBump(order: seq<string>, counts: map<string, nat>, j: nat)
    requires Distinct(order) && j < |order|
    requires forall i :: 0 <= i < |order| ==> order[i] in counts
    ensures var b := order[j];
      CountList(order, counts[b := counts[b] + 1]) == CountList(order, counts)[j := counts[b] + 1]
  {
  }

  lemma {:induction false} SumIncrement(xs: seq<nat>, j: nat)
    requires j < |xs|
    ensures Sum(xs[j := xs[j] + 1]) == Sum(xs) + 1
  {
    if j > 0 {
      assert xs[j := xs[j] + 1][1..] == xs[1..][j - 1 := xs[j] + 1];
      SumIncrement(xs[1..], j - 1);
    }
  }

  /** Index of the first occurrence of b. */
  function FirstIndex(s: seq<string>, b: string): (i: nat)
    requires b in s
    ensures i < |s| && s[i] == b && b !in s[..i]
  {
    if s[0] == b then 0 else 1 + FirstIndex(s[1..], b)
  }

  /** The first occurrence is the only index with b there and not before. */
  lemma FirstIndexUnique(s: seq<string>, b: string, k: nat)
    requires k < |s| && s[k] == b && b !in s[..k]
    ensures FirstIndex(s, b) == k
  {
  }

  lemma FirstIndexOfExtension(s: seq<string>, x: string, b: string)
    requires b in s
    ensures FirstIndex(s + [x], b) == FirstIndex(s, b)
  {
    var i := FirstIndex(s, b);
    assert (s + [x])[..i] == s[..i];
    FirstIndexUnique(s + [x], b, i);
  }

  /** `order` lists names of `bases` by increasing first occurrence. */
  ghost predicate FirstOccurrenceSorted(order: seq<string>, bases: seq<string>)
  {
    (forall i :: 0 <= i < |order| ==> order[i] in bases) &&
    forall i, j :: 0 <= i < j < |order| ==> FirstIndex(bases, order[i]) < FirstIndex(bases, order[j])
  }

  /** The tally, and so the resolver's names, come out in first-occurrence
      order. */
  lemma {:induction false} FirstOccurrenceOrder(bases: seq<string>)
    ensures FirstOccurrenceSorted(TallyBases(bases).order, bases)
    ensures FirstOccurrenceSorted(Resolve(bases).names, bases)
    decreases |bases|
  {
    assert Resolve(bases).names == TallyBases(bases).order;
    if |bases| > 0 {
      var prefix := bases[..|bases| - 1];
      var b := bases[|bases| - 1];
      assert bases == prefix + [b];
      FirstOccurrenceOrder(prefix);
      StepOrder(TallyBases(prefix), prefix, b);
    }
  }

  lemma StepOrder(t: Tally, prefix: seq<string>, b: string)
    requires WellFormed(t) && forall x :: x in t.order <==> x in prefix
    requires FirstOccurrenceSorted(t.order, prefix)
    ensures FirstOccurrenceSorted(Step(t, b).order, prefix + [b])
  {
    var bases := prefix + [b];
    forall k | 0 <= k < |t.order|
      ensures FirstIndex(bases, t.order[k]) == FirstIndex(prefix, t.order[k])
    {
      FirstIndexOfExtension(prefix, b, t.order[k]);
    }
    if b !in t.counts {
      assert FirstIndex(bases, b) == |prefix| by {
        assert bases[..|prefix|] == prefix;
        FirstIndexUnique(bases, b, |prefix|);
      }
    }
  }

  /** filter_duplicate_headers as the standard copies write it: the filtered
      names joined by commas, and the parallel count list. The decoders split
      and strip the joined names again and get exactly the resolved names. */
  function FilterDuplicateHeaders(header: string): (r: (string, seq<nat>))
    ensures var res := Resolve(Bases(header, false));
      DeviceNames(r.0) == res.names && r.1 == res.counts
  {
    var res := Resolve(Bases(header, false));
    NamesSurviveJoin(Bases(header, false));
    (Join(res.names, ','), res.counts)
  }

  /** [key.strip() for key in filtered_header.split(",")]: the decoders' way
      of recovering the names from the joined header. */
  function DeviceNames(joined: string): seq<string>
  {
    var keys := Split(joined, ',');
    seq(|keys|, i requires 0 <= i < |keys| => Trim(keys[i], IsSpace))
  }

  lemma NotInTrimStart(s: string, drop: char -> bool, c: char)
    requires c !in s
    ensures c !in TrimStart(s, drop)
  {
    var r := TrimStart(s, drop);
    assert forall i :: 0 <= i < |r| ==> r[i] == s[|s| - |r| + i];
  }

  lemma NotInTrimEnd(s: string, drop: char -> bool, c: char)
    requires c !in s
    ensures c !in TrimEnd(s, drop)
  {
    var r := TrimEnd(s, drop);
    assert forall i :: 0 <= i < |r| ==> r[i] == s[i];
  }

  lemma NotInTrim(s: string, drop: char -> bool, c: char)
    requires c !in s
    ensures c !in Trim(s, drop)
  {
    NotInTrimStart(s, drop, c);
    NotInTrimEnd(TrimStart(s, drop), drop, c);
  }

  /** A base name has no comma and nothing left to strip. */
  lemma BaseNameShape(token: string, keepNul: bool)
    requires ',' !in token
    ensures var b := BaseOfUnchecked(token, keepNul);
      ',' !in b && Trimmed(b, IsSpace)
  {
    var a := Trim(token, IsSpace);
    NotInTrim(token, IsSpace, ',');
    if keepNul {
      DigitsAndSpaceShape(a);
    } else {
      NotInTrim(a, IsNul, ',');
      DigitsAndSpaceShape(Trim(a, IsNul));
    }
  }

  /** The last two stripping steps keep a comma-free string comma-free. */
  lemma DigitsAndSpaceShape(n: string)
    requires ',' !in n
    ensures var b := Trim(TrimEnd(n, IsDigit), IsSpace);
      ',' !in b && Trimmed(b, IsSpace)
  {
    NotInTrimEnd(n, IsDigit, ',');
    NotInTrim(TrimEnd(n, IsDigit), IsSpace, ',');
  }

  /** Joining comma-free, stripped names with commas, then splitting and
      stripping again, gives the names back. */
  lemma NamesSurviveJoin(bases: seq<string>)
    requires |bases| >= 1
    requires forall i :: 0 <= i < |bases| ==> ',' !in bases[i] && Trimmed(bases[i], IsSpace)
    ensures var names := Resolve(bases).names;
      DeviceNames(Join(names, ',')) == names
  {
    var names := Resolve(bases).names;
    forall i | 0 <= i < |names|
      ensures ',' !in names[i] && Trim(names[i], IsSpace) == names[i]
    {
      var k :| 0 <= k < |bases| && bases[k] == names[i];
      TrimOfTrimmed(names[i], IsSpace);
    }
    SplitJoin(names, ',');
  }

  /** The process_benji2_motec.py copy: it returns the name list and the
      count dictionary itself. */
  function FilterDuplicateHeadersKeepNul(header: string): (t: Tally)
    ensures var res := Resolve(Bases(header, true));
      t.order == res.names &&
      (forall i :: 0 <= i < |res.names| ==> res.names[i] in t.counts && t.counts[res.names[i]] == res.counts[i]) &&
      (forall b :: b in t.counts ==> b in t.order)
  {
    TallyBases(Bases(header, true))
  }
}
