/**
 * `Node._generate_MAC` of networking.py: an address of `segments` groups of
 * `segment_length` characters drawn from a character set, joined by a
 * delimiter. The random draws are an input: `choices[i][j]` is the index in the
 * character set of the `j`-th character of the `i`-th group.
 */
module MacAddresses {
  import opened Links

  const HexDigits: string := "0123456789abcdef"

  /** Every draw indexes the character set (what `random.choice` returns). */
  predicate InRange(choices: seq<seq<nat>>, charset: string)
  {
    forall i, j :: 0 <= i < |choices| && 0 <= j < |choices[i]| ==> choices[i][j] < |charset|
  }

  /** The draws for `segments` groups of `segmentLength` characters. */
  predicate ValidChoices(choices: seq<seq<nat>>, segments: nat, segmentLength: nat, charset: string)
  {
    && |choices| == segments
    && (forall i :: 0 <= i < |choices| ==> |choices[i]| == segmentLength)
    && InRange(choices, charset)
  }

  /** One group: the characters the draws pick out. */
  function Pick(charset: string, picks: seq<nat>): (s: string)
    requires forall j :: 0 <= j < |picks| ==> picks[j] < |charset|
    ensures |s| == |picks|
    ensures forall j :: 0 <= j < |s| ==> s[j] in charset
  {
    seq(|picks|, j requires 0 <= j < |picks| => charset[picks[j]])
  }

  /** All groups, in order. */
  function Segments(charset: string, choices: seq<seq<nat>>): (parts: seq<string>)
    requires InRange(choices, charset)
    ensures |parts| == |choices|
    ensures forall i :: 0 <= i < |parts| ==> |parts[i]| == |choices[i]|
    ensures forall i, j :: 0 <= i < |parts| && 0 <= j < |parts[i]| ==> parts[i][j] in charset
  {
    seq(|choices|, i requires 0 <= i < |choices| => Pick(charset, choices[i]))
  }

  /** Python's `delim.join(parts)`: it starts with the first part and ends with
      the last. */
  function Join(parts: seq<string>, delim: string): (r: string)
    ensures |parts| > 0 ==> parts[0] <= r
    ensures |parts| > 0 ==> |r| >= |parts[|parts| - 1]| && r[|r| - |parts[|parts| - 1]|..] == parts[|parts| - 1]
    decreases |parts|
  {
    if |parts| == 0 then ""
    else if |parts| == 1 then parts[0]
    else parts[0] + delim + Join(parts[1..], delim)
  }

  /** Python's `s.split(d)` for a one-character separator: always at least one
      part, an empty one for every separator at an end or next to another. */
  function Split(s: string, d: char): (parts: seq<string>)
    ensures |parts| >= 1
    decreases |s|
  {
    if s == [] then [""]
    else
      var rest := Split(s[1..], d);
      if s[0] == d then [""] + rest else [[s[0]] + rest[0]] + rest[1..]
  }

  lemma {:induction false} SplitWithoutSeparator(x: string, d: char)
    requires d !in x
    ensures Split(x, d) == [x]
    decreases |x|
  {
    if x != [] {
      SplitWithoutSeparator(x[1..], d);
      assert [x[0]] + x[1..] == x;
    }
  }

  lemma {:induction false} SplitAtFirstSeparator(x: string, y: string, d: char)
    requires d !in x
    ensures Split(x + [d] + y, d) == [x] + Split(y, d)
    decreases |x|
  {
    var s := x + [d] + y;
    if x == [] {
      assert s[1..] == y;
    } else {
      assert s[1..] == x[1..] + [d] + y;
      SplitAtFirstSeparator(x[1..], y, d);
      assert [x[0]] + x[1..] == x;
    }
  }

  /** Splitting a join at its separator gives back the parts, provided no part
      contains the separator. */
  lemma {:induction false} SplitJoin(parts: seq<string>, d: char)
    requires |parts| >= 1
    requires forall i :: 0 <= i < |parts| ==> d !in parts[i]
    ensures Split(Join(parts, [d]), d) == parts
    decreases |parts|
  {
    if |parts| == 1 {
      SplitWithoutSeparator(parts[0], d);
    } else {
      SplitJoin(parts[1..], d);
      SplitAtFirstSeparator(parts[0], Join(parts[1..], [d]), d);
      assert [parts[0]] + parts[1..] == parts;
    }
  }

  /** The length of a join of parts of equal length. */
  lemma {:induction false} JoinLength(parts: seq<string>, delim: string, k: nat)
    requires |parts| >= 1
    requires forall i :: 0 <= i < |parts| ==> |parts[i]| == k
    ensures |Join(parts, delim)| + |delim| == |parts| * (k + |delim|)
    decreases |parts|
  {
    if |parts| > 1 {
      JoinLength(parts[1..], delim, k);
      assert |parts| * (k + |delim|) == (k + |delim|) + (|parts| - 1) * (k + |delim|);
    }
  }

  /** `_generate_MAC(segments, segment_length, delimiter, charset)` with the
      random draws given as `choices`. When the delimiter is one character that
      is not in the character set, the address splits back into exactly the
      groups drawn. */
  method GenerateMac(segments: nat, segmentLength: nat, delimiter: string, charset: string, choices: seq<seq<nat>>)
    returns (addr: Address)
    requires ValidChoices(choices, segments, segmentLength, charset)
    ensures addr == Join(Segments(charset, choices), delimiter)
    ensures |delimiter| == 1 && delimiter[0] !in charset && segments > 0 ==>
              Split(addr, delimiter[0]) == Segments(charset, choices)
  {
    var groups: seq<string> := [];
    var i := 0;
    while i < segments
      invariant 0 <= i <= segments
      invariant groups == Segments(charset, choices[..i])
    {
      var sub: string := "";
      var j := 0;
      while j < segmentLength
        invariant 0 <= j <= segmentLength
        invariant sub == Pick(charset, choices[i][..j])
      {
        sub := sub + [charset[choices[i][j]]];
        j := j + 1;
      }
      assert choices[i][..j] == choices[i];
      groups := groups + [sub];
      i := i + 1;
    }
    assert choices[..i] == choices;
    addr := Join(groups, delimiter);
    if |delimiter| == 1 && delimiter[0] !in charset && segments > 0 {
      assert delimiter == [delimiter[0]];
      SplitJoin(groups, delimiter[0]);
    }
  }

  /** A MAC made with the defaults (six groups of two hex digits) is 17
      characters long, so it is never the broadcast address. */
  lemma DefaultMacIsNotBroadcast(choices: seq<seq<nat>>)
    requires ValidChoices(choices, 6, 2, HexDigits)
    ensures |Join(Segments(HexDigits, choices), ":")| == 17
    ensures Join(Segments(HexDigits, choices), ":") != BroadcastAddr
  {
    JoinLength(Segments(HexDigits, choices), ":", 2);
  }
}
