/**
 * Names of data parts: how they are taken apart (table_metadata.py), and when two of them count as the same part up to
 * a mutation (deduplication.py).
 */
module PartNames {
  import opened Bytes

  // ---------- taking a name apart

  /** Splits a string at '_', at most `times` times. */
  function Split(s: string, times: nat): (r: seq<string>)
    ensures 1 <= |r| <= times + 1
  {
    if times == 0 || '_' !in s then [s]
    else
      var i := IndexOf(s, '_');
      [s[..i]] + Split(s[i + 1..], times - 1)
  }

  function IndexOf(s: string, c: char): (i: nat)
    requires c in s
    ensures i < |s| && s[i] == c && c !in s[..i]
  {
    if s[0] == c then 0
    else
      assert s[..IndexOf(s[1..], c) + 1] == [s[0]] + s[1..][..IndexOf(s[1..], c)];
      1 + IndexOf(s[1..], c)
  }

  datatype PartInfo = PartInfo(partition: string, minBlock: int, maxBlock: int, level: int, mutation: int)

  /** split_part_name over a parser of integers; None stands for ValueError. */
  function SplitPartName(parse: string -> Option<int>, name: string): Option<PartInfo> {
    var chunks := Split(name, 4);
    if |chunks| < 4 || parse(chunks[1]) == None || parse(chunks[2]) == None || parse(chunks[3]) == None
       || (|chunks| == 5 && parse(chunks[4]) == None) then None
    else Some(PartInfo(chunks[0], parse(chunks[1]).value, parse(chunks[2]).value, parse(chunks[3]).value,
                       if |chunks| == 5 then parse(chunks[4]).value else 0))
  }

  predicate Parses(parse: string -> Option<int>, name: string) {
    SplitPartName(parse, name).Some?
  }

  predicate IsMutationRenamed(parse: string -> Option<int>, current: string, stored: string)
    requires Parses(parse, current) && Parses(parse, stored)
  {
    var a, b := SplitPartName(parse, current).value, SplitPartName(parse, stored).value;
    a.partition == b.partition && a.minBlock == b.minBlock && a.maxBlock == b.maxBlock && a.level == b.level
  }

  /** The name without its mutation suffix. */
  function Base(name: string): seq<string> {
    var chunks := Split(name, 4);
    chunks[..Min(4, |chunks|)]
  }

  // ---------- the integers of Python

  predicate IsSpace(c: char) {
    c == ' ' || '\t' <= c <= '\r'
  }

  function TrimLeft(s: string): string {
    if s != [] && IsSpace(s[0]) then TrimLeft(s[1..]) else s
  }

  function TrimRight(s: string): string {
    if s != [] && IsSpace(s[|s| - 1]) then TrimRight(s[..|s| - 1]) else s
  }

  /** Digits, with single underscores between them if need be. */
  function ReadDigits(s: string): Option<nat> {
    var last := |s| - 1;
    if s == [] || !('0' <= s[last] <= '9') then None
    else if last == 0 then Some(DigitOf(s[last]))
    else
      var front := ReadDigits(if s[last - 1] == '_' then s[..last - 1] else s[..last]);
      if front == None then None else Some(10 * front.value + DigitOf(s[last]))
  }

  function DigitOf(c: char): nat
    requires '0' <= c <= '9'
  {
    c as int - '0' as int
  }

  /** `int(s)` for a string of ASCII characters; None stands for ValueError. */
  function ReadInt(s: string): Option<int> {
    var t := TrimRight(TrimLeft(s));
    if t == [] then None
    else if t[0] == '-' then
      var n := ReadDigits(t[1..]);
      if n == None then None else Some(0 - n.value as int)
    else
      var n := ReadDigits(if t[0] == '+' then t[1..] else t);
      if n == None then None else Some(n.value)
  }

  function Digits(n: nat): (s: string)
    ensures s != [] && forall c <- s :: '0' <= c <= '9'
  {
    (if n < 10 then [] else Digits(n / 10)) + [(n % 10 + '0' as int) as char]
  }

  /** `str(n)`. */
  function Text(n: int): (s: string)
    ensures s != [] && '_' !in s
  {
    if n < 0 then ['-'] + Digits(-n) else Digits(n)
  }

  lemma {:induction false} DigitsRoundTrip(n: nat)
    ensures ReadDigits(Digits(n)) == Some(n)
  {
    var s := Digits(n);
    if n >= 10 {
      DigitsRoundTrip(n / 10);
      assert s[..|s| - 1] == Digits(n / 10);
      assert s[|s| - 2] == Digits(n / 10)[|s| - 2] && Digits(n / 10)[|s| - 2] in Digits(n / 10);
    }
  }

  lemma NothingToTrim(s: string)
    requires s != [] && !IsSpace(s[0]) && !IsSpace(s[|s| - 1])
    ensures TrimRight(TrimLeft(s)) == s
  {
  }

  /** What is printed reads back. */
  lemma TextRoundTrip(n: int)
    ensures ReadInt(Text(n)) == Some(n)
  {
    var s := Text(n);
    var digits := Digits(if n < 0 then -n else n);
    DigitsRoundTrip(if n < 0 then -n else n);
    assert digits[0] in digits && digits[|digits| - 1] in digits && s[|s| - 1] == digits[|digits| - 1];
    NothingToTrim(s);
    if n < 0 {
      assert s[1..] == digits;
    }
  }

  // ---------- which names count as the same part

  /** What `text` prints, `parse` reads back; and no underscore is printed. */
  ghost predicate ReadsBack(parse: string -> Option<int>, text: int -> string) {
    forall n :: parse(text(n)) == Some(n) && '_' !in text(n)
  }

  lemma PythonReadsBack()
    ensures ReadsBack(ReadInt, Text)
  {
    forall n
      ensures ReadInt(Text(n)) == Some(n) && '_' !in Text(n)
    {
      TextRoundTrip(n);
    }
  }

  /** The three numbers that are compared are written as they are printed. */
  predicate Written(parse: string -> Option<int>, text: int -> string, name: string)
    requires Parses(parse, name)
  {
    var chunks := Split(name, 4);
    && chunks[1] == text(parse(chunks[1]).value) && chunks[2] == text(parse(chunks[2]).value)
    && chunks[3] == text(parse(chunks[3]).value)
  }

  lemma BaseIs(a: string, b: string)
    requires |Split(a, 4)| >= 4 && |Split(b, 4)| >= 4
    ensures Base(a) == Base(b) <==>
            && Split(a, 4)[0] == Split(b, 4)[0] && Split(a, 4)[1] == Split(b, 4)[1]
            && Split(a, 4)[2] == Split(b, 4)[2] && Split(a, 4)[3] == Split(b, 4)[3]
  {
    var x, y := Split(a, 4), Split(b, 4);
    assert forall k | 0 <= k < 4 :: x[k] == Base(a)[k] && y[k] == Base(b)[k];
    assert Base(a) == [x[0], x[1], x[2], x[3]] && Base(b) == [y[0], y[1], y[2], y[3]];
  }

  /** Two written names count as the same part exactly if they differ by the mutation suffix only. */
  lemma RenamedIff(parse: string -> Option<int>, text: int -> string, current: string, stored: string)
    requires Parses(parse, current) && Parses(parse, stored)
    requires Written(parse, text, current) && Written(parse, text, stored)
    ensures IsMutationRenamed(parse, current, stored) <==> Base(current) == Base(stored)
  {
    BaseIs(current, stored);
  }

  /** The name without mutation whose numbers are those of `name` as they are printed. */
  function Rewritten(parse: string -> Option<int>, text: int -> string, name: string): string
    requires Parses(parse, name)
  {
    var info := SplitPartName(parse, name).value;
    info.partition + "_" + (text(info.minBlock) + "_" + (text(info.maxBlock) + "_" + text(info.level)))
  }

  lemma SplitFirst(a: string, rest: string, times: nat)
    requires '_' !in a && times > 0
    ensures Split(a + "_" + rest, times) == [a] + Split(rest, times - 1)
  {
    var s := a + "_" + rest;
    assert s[|a|] == '_' && s[..|a|] == a;
    IndexIs(s, '_', |a|);
    assert s[|a| + 1..] == rest;
  }

  lemma {:induction false} IndexIs(s: string, c: char, n: nat)
    requires n < |s| && s[n] == c && c !in s[..n]
    ensures IndexOf(s, c) == n
  {
    if n > 0 {
      assert s[..n][0] == s[0];
      assert s[1..][n - 1] == c && s[..n] == [s[0]] + s[1..][..n - 1];
      IndexIs(s[1..], c, n - 1);
    }
  }

  lemma SplitTwo(a: string, b: string, rest: string, times: nat)
    requires '_' !in a && '_' !in b && times > 1
    ensures Split(a + "_" + (b + "_" + rest), times) == [a, b] + Split(rest, times - 2)
  {
    SplitFirst(a, b + "_" + rest, times);
    SplitFirst(b, rest, times - 1);
  }

  lemma SplitFour(a: string, b: string, c: string, d: string)
    requires '_' !in a && '_' !in b && '_' !in c && '_' !in d
    ensures Split(a + "_" + (b + "_" + (c + "_" + d)), 4) == [a, b, c, d]
  {
    SplitTwo(a, b, c + "_" + d, 4);
    SplitFirst(c, d, 2);
  }

  lemma FirstChunk(name: string)
    ensures '_' !in Split(name, 4)[0]
  {
  }

  /** A name counts as the same part as its rewritten form, which has the same beginning only if it is written. */
  lemma RewrittenCounts(parse: string -> Option<int>, text: int -> string, name: string)
    requires Parses(parse, name) && ReadsBack(parse, text)
    ensures Parses(parse, Rewritten(parse, text, name)) && Written(parse, text, Rewritten(parse, text, name))
    ensures IsMutationRenamed(parse, name, Rewritten(parse, text, name))
    ensures Base(name) == Base(Rewritten(parse, text, name)) <==> Written(parse, text, name)
  {
    RewrittenSplit(parse, text, name);
    BaseIs(name, Rewritten(parse, text, name));
  }

  lemma RewrittenSplit(parse: string -> Option<int>, text: int -> string, name: string)
    requires Parses(parse, name) && ReadsBack(parse, text)
    ensures var info := SplitPartName(parse, name).value;
            Split(Rewritten(parse, text, name), 4)
            == [info.partition, text(info.minBlock), text(info.maxBlock), text(info.level)]
  {
    var info := SplitPartName(parse, name).value;
    FirstChunk(name);
    SplitFour(info.partition, text(info.minBlock), text(info.maxBlock), text(info.level));
  }

  /**
   * The comparison does what it says exactly for written names: a name that is not written counts as the same part as
   * some written one from which it differs before the mutation.
   */
  lemma ExactIffWritten(parse: string -> Option<int>, text: int -> string, name: string)
    requires Parses(parse, name) && ReadsBack(parse, text)
    ensures Written(parse, text, name)
            <==> forall stored | Parses(parse, stored) && Written(parse, text, stored) ::
                   IsMutationRenamed(parse, name, stored) <==> Base(name) == Base(stored)
  {
    RewrittenCounts(parse, text, name);
    forall stored | Parses(parse, stored) && Written(parse, text, stored) && Written(parse, text, name)
      ensures IsMutationRenamed(parse, name, stored) <==> Base(name) == Base(stored)
    {
      RenamedIff(parse, text, name, stored);
    }
  }

  /** So it is for Python's integers. */
  lemma PythonExactIffWritten(name: string)
    requires Parses(ReadInt, name)
    ensures Written(ReadInt, Text, name)
            <==> forall stored | Parses(ReadInt, stored) && Written(ReadInt, Text, stored) ::
                   IsMutationRenamed(ReadInt, name, stored) <==> Base(name) == Base(stored)
  {
    PythonReadsBack();
    ExactIffWritten(ReadInt, Text, name);
  }

  /** A number with a zero in front. */
  lemma {:induction false} LeadingZeroReads(s: string)
    requires forall c <- s :: '0' <= c <= '9'
    requires s != []
    ensures ReadDigits(['0'] + s) == ReadDigits(s)
  {
    var last := |s| - 1;
    assert s[last] in s && (['0'] + s)[..|s|] == ['0'] + s[..last];
    if last > 0 {
      assert forall c <- s[..last] :: c in s;
      assert s[last - 1] in s && (['0'] + s)[|s| - 1] == s[last - 1];
      LeadingZeroReads(s[..last]);
    } else {
      assert s == [s[0]] && (['0'] + s)[..1] == ['0'];
      assert ReadDigits(['0']) == Some(0);
    }
  }

  lemma PaddedReads(n: nat)
    ensures ReadInt(['0'] + Text(n)) == Some(n) && '_' !in ['0'] + Text(n)
  {
    var s := Text(n);
    DigitsRoundTrip(n);
    LeadingZeroReads(s);
    assert s[|s| - 1] in s;
    NothingToTrim(['0'] + s);
  }

  lemma SplitFive(a: string, b: string, c: string, d: string, e: string)
    requires '_' !in a && '_' !in b && '_' !in c && '_' !in d
    ensures Split(a + "_" + (b + "_" + (c + "_" + (d + "_" + e))), 4) == [a, b, c, d, e]
  {
    SplitTwo(a, b, c + "_" + (d + "_" + e), 4);
    SplitTwo(c, d, e, 2);
  }

  /** Such as "all_1_1_0" and "all_01_1_0_2": a leading zero is enough, in any name. */
  lemma LeadingZeroMisleads(partition: string, minBlock: nat, rest: string, level: nat, mutation: nat)
    requires '_' !in partition && '_' !in rest && ReadInt(rest).Some?
    ensures var plain := partition + "_" + (Text(minBlock) + "_" + (rest + "_" + Text(level)));
            var padded := partition + "_" + (['0'] + Text(minBlock) + "_" + (rest + "_" + (Text(level) + "_" +
                Text(mutation))));
            && Parses(ReadInt, plain) && Parses(ReadInt, padded)
            && IsMutationRenamed(ReadInt, plain, padded) && Base(plain) != Base(padded)
  {
    PaddedReads(minBlock);
    TextRoundTrip(minBlock);
    TextRoundTrip(level);
    TextRoundTrip(mutation);
    Padded(ReadInt, partition, Text(minBlock), ['0'] + Text(minBlock), rest, Text(level), Text(mutation));
  }

  lemma Padded(parse: string -> Option<int>, a: string, b: string, b': string, c: string, d: string, e: string)
    requires '_' !in a && '_' !in b && '_' !in b' && '_' !in c && '_' !in d && b != b'
    requires parse(b).Some? && parse(b') == parse(b) && parse(c).Some? && parse(d).Some? && parse(e).Some?
    ensures var plain := a + "_" + (b + "_" + (c + "_" + d));
            var padded := a + "_" + (b' + "_" + (c + "_" + (d + "_" + e)));
            && Parses(parse, plain) && Parses(parse, padded)
            && IsMutationRenamed(parse, plain, padded) && Base(plain) != Base(padded)
  {
    SplitFour(a, b, c, d);
    SplitFive(a, b', c, d, e);
    PaddedOf(parse, a + "_" + (b + "_" + (c + "_" + d)), a + "_" + (b' + "_" + (c + "_" + (d + "_" + e))),
             [a, b, c, d], [a, b', c, d, e]);
  }

  lemma PaddedOf(parse: string -> Option<int>, plain: string, padded: string, x: seq<string>, y: seq<string>)
    requires Split(plain, 4) == x && Split(padded, 4) == y && |x| == 4 && |y| == 5
    requires x[0] == y[0] && x[1] != y[1] && x[2] == y[2] && x[3] == y[3]
    requires parse(x[1]).Some? && parse(x[1]) == parse(y[1]) && parse(x[2]).Some? && parse(x[3]).Some?
    requires parse(y[4]).Some?
    ensures Parses(parse, plain) && Parses(parse, padded)
    ensures IsMutationRenamed(parse, plain, padded) && Base(plain) != Base(padded)
  {
    BaseIs(plain, padded);
  }

  lemma AllNames()
    ensures "all_1_1_0" == "all" + "_" + (Text(1) + "_" + (Text(1) + "_" + Text(0)))
    ensures "all_01_1_0_2" == "all" + "_" + (['0'] + Text(1) + "_" + (Text(1) + "_" + (Text(0) + "_" + Text(2))))
  {
    assert Text(0) == "0" && Text(1) == "1" && Text(2) == "2";
  }

  /** The same for one pair of names of the default partition. */
  lemma AllParts(plain: string, padded: string)
    requires plain == "all_1_1_0" && padded == "all_01_1_0_2"
    ensures Parses(ReadInt, plain) && Parses(ReadInt, padded)
    ensures IsMutationRenamed(ReadInt, plain, padded) && Base(plain) != Base(padded)
  {
    AllNames();
    var zero, one, two: nat := 0, 1, 2;
    TextRoundTrip(one);
    LeadingZeroMisleads("all", one, Text(one), zero, two);
  }
}
