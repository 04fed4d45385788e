/** Keys of one-shot results: topic strings joined with the unit separator. */
module RtdOnceKeys {

  type Key = string

  const SEP: char := '\U{1f}'

  function Join(topics: seq<string>): Key {
    if topics == [] then ""
    else if |topics| == 1 then topics[0]
    else topics[0] + [SEP] + Join(topics[1..])
  }

  method MakeRtdOnceKey(topics: seq<string>) returns (key: Key)
    ensures key == Join(topics)
  {
    key := "";
    for i := 0 to |topics|
      invariant key == Join(topics[..i])
    {
      JoinUpTo(topics, i);
      if i > 0 {
        key := key + [SEP];
      }
      key := key + topics[i];
    }
    assert topics[..|topics|] == topics;
  }

  lemma JoinUpTo(topics: seq<string>, i: nat)
    requires i < |topics|
    ensures Join(topics[..i + 1]) == if i == 0 then topics[i] else Join(topics[..i]) + [SEP] + topics[i]
  {
    JoinAppend(topics[..i], topics[i]);
    assert topics[..i + 1] == topics[..i] + [topics[i]];
  }

  lemma {:induction false} JoinAppend(topics: seq<string>, t: string)
    ensures Join(topics + [t]) == if topics == [] then t else Join(topics) + [SEP] + t
  {
    if |topics| > 1 {
      JoinAppend(topics[1..], t);
      assert (topics + [t])[1..] == topics[1..] + [t];
      assert Join(topics + [t]) == topics[0] + [SEP] + Join(topics[1..] + [t]);
      assert topics[0] + [SEP] + (Join(topics[1..]) + [SEP] + t) == topics[0] + [SEP] + Join(topics[1..]) + [SEP] + t;
    } else if |topics| == 1 {
      assert (topics + [t])[1..] == [t];
    }
  }

  /** The leading segment. */
  function FuncNameOfKey(key: Key): string {
    if key == "" || key[0] == SEP then "" else [key[0]] + FuncNameOfKey(key[1..])
  }

  function RestOfKey(key: Key): Key {
    if key == "" then "" else if key[0] == SEP then key[1..] else RestOfKey(key[1..])
  }

  function Split(key: Key): seq<string>
    decreases |key|
  {
    if SEP !in key then [key]
    else
      ShorterRest(key);
      [FuncNameOfKey(key)] + Split(RestOfKey(key))
  }

  lemma {:induction false} ShorterRest(key: Key)
    requires SEP in key
    ensures |RestOfKey(key)| < |key|
  {
    if key[0] != SEP {
      ShorterRest(key[1..]);
    }
  }

  ghost predicate Plain(topics: seq<string>) {
    topics != [] && forall i :: 0 <= i < |topics| ==> SEP !in topics[i]
  }

  lemma {:induction false} HeadOf(t: string, rest: Key)
    requires SEP !in t
    ensures FuncNameOfKey(t + [SEP] + rest) == t && RestOfKey(t + [SEP] + rest) == rest
    ensures FuncNameOfKey(t) == t
  {
    if t != "" {
      HeadOf(t[1..], rest);
      assert (t + [SEP] + rest)[1..] == t[1..] + [SEP] + rest;
    } else {
      assert (t + [SEP] + rest)[1..] == rest;
    }
  }

  lemma {:induction false} HeadIsPlain(key: Key)
    ensures SEP !in FuncNameOfKey(key)
  {
    if key != "" && key[0] != SEP {
      HeadIsPlain(key[1..]);
    }
  }

  /** The policy lookup finds the function exactly when its name holds no separator. */
  lemma FuncNameIffPlain(topics: seq<string>)
    requires topics != []
    ensures FuncNameOfKey(Join(topics)) == topics[0] <==> SEP !in topics[0]
  {
    HeadIsPlain(Join(topics));
    if SEP !in topics[0] {
      HeadOf(topics[0], Join(topics[1..]));
    }
  }

  lemma {:induction false} SplitIsPlain(key: Key)
    ensures Plain(Split(key))
    decreases |key|
  {
    if SEP in key {
      ShorterRest(key);
      HeadIsPlain(key);
      SplitIsPlain(RestOfKey(key));
    }
  }

  lemma {:induction false} SplitJoin(topics: seq<string>)
    requires Plain(topics)
    ensures Split(Join(topics)) == topics
  {
    if |topics| > 1 {
      var rest := Join(topics[1..]);
      HeadOf(topics[0], rest);
      assert Join(topics)[|topics[0]|] == SEP;
      SplitJoin(topics[1..]);
    }
  }

  /** A key gives its topics back exactly when none of them holds a separator. */
  lemma KeyRoundTripIffPlain(topics: seq<string>)
    ensures Split(Join(topics)) == topics <==> Plain(topics)
  {
    SplitIsPlain(Join(topics));
    if Plain(topics) {
      SplitJoin(topics);
    }
  }

  lemma {:induction false} HeadAndRest(key: Key)
    requires SEP in key
    ensures key == FuncNameOfKey(key) + [SEP] + RestOfKey(key)
  {
    if key[0] != SEP {
      HeadAndRest(key[1..]);
    }
  }

  /** Splitting loses nothing of a key. */
  lemma {:induction false} JoinSplit(key: Key)
    ensures Join(Split(key)) == key
    decreases |key|
  {
    if SEP in key {
      ShorterRest(key);
      HeadAndRest(key);
      JoinSplit(RestOfKey(key));
      SplitIsPlain(RestOfKey(key));
    }
  }

  lemma SplitCons(t: string, rest: Key)
    requires SEP !in t
    ensures Split(t + [SEP] + rest) == [t] + Split(rest)
  {
    HeadOf(t, rest);
    assert (t + [SEP] + rest)[|t|] == SEP;
  }

  lemma {:induction false} SplitConcat(a: string, rest: Key)
    ensures Split(a + [SEP] + rest) == Split(a) + Split(rest)
    decreases |a|
  {
    if SEP !in a {
      SplitCons(a, rest);
    } else {
      var head, tail := FuncNameOfKey(a), RestOfKey(a);
      ShorterRest(a);
      HeadAndRest(a);
      HeadIsPlain(a);
      SplitConcat(tail, rest);
      SplitCons(head, tail + [SEP] + rest);
      assert a + [SEP] + rest == head + [SEP] + (tail + [SEP] + rest);
    }
  }

  /** The separator-free parts of a call's topics, in order. */
  function Flatten(topics: seq<string>): seq<string> {
    if |topics| <= 1 then (if topics == [] then [""] else Split(topics[0]))
    else Split(topics[0]) + Flatten(topics[1..])
  }

  lemma {:induction false} SplitJoinFlattens(topics: seq<string>)
    ensures Split(Join(topics)) == Flatten(topics)
  {
    if |topics| > 1 {
      SplitJoinFlattens(topics[1..]);
      SplitConcat(topics[0], Join(topics[1..]));
    }
  }

  /** Two calls share a key exactly when their topics, cut at every separator they
      hold, are the same list. */
  lemma KeysShareIff(a: seq<string>, b: seq<string>)
    ensures Join(a) == Join(b) <==> Flatten(a) == Flatten(b)
  {
    SplitJoinFlattens(a);
    SplitJoinFlattens(b);
    JoinSplit(Join(a));
    JoinSplit(Join(b));
  }

  /** Distinct separator-free calls never share a key... */
  lemma KeysDistinct(a: seq<string>, b: seq<string>)
    requires Plain(a) && Plain(b) && Join(a) == Join(b)
    ensures a == b
  {
    SplitJoin(a);
    SplitJoin(b);
  }

  /** ...but an argument holding the separator collides with two arguments. */
  lemma KeysCollide(f: string, x: string, y: string)
    ensures Join([f, x + "\U{1f}" + y]) == Join([f, x, y]) == f + "\U{1f}" + x + "\U{1f}" + y
    ensures [f, x + [SEP] + y] != [f, x, y]
  {
    assert [f, x, y][1..] == [x, y] && [x, y][1..] == [y];
    assert [f, x + [SEP] + y][1..] == [x + [SEP] + y];
    assert Join([x, y]) == x + [SEP] + y;
  }
}
