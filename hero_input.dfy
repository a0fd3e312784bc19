/** The rank collector: hero names are typed one per line, best first, and
    each accepted name gets the next rank, until a line reading "end". */
module HeroInput {
  import opened Heroes
  import opened Text

  /** The line that ends collection: "end" in any letter case, once stripped. */
  predicate IsEnd(line: string)
    ensures IsEnd(line) ==> |Trim(line)| == 3
  {
    Lower(Trim(line)) == "end"
  }

  /** The position of the first "end" line, or the number of lines if there
      is none. */
  function FirstEnd(lines: seq<string>): (r: nat)
    ensures r <= |lines|
    ensures forall j :: 0 <= j < r ==> !IsEnd(lines[j])
    ensures r < |lines| ==> IsEnd(lines[r])
  {
    if lines == [] then 0
    else if IsEnd(lines[0]) then 0
    else 1 + FirstEnd(lines[1..])
  }

  /** Every line, stripped. */
  function Stripped(lines: seq<string>): (r: seq<string>)
    ensures |r| == |lines|
  {
    seq(|lines|, j requires 0 <= j < |lines| => Trim(lines[j]))
  }

  /** What one line contributes: its stripped form, unless that is empty. */
  function Kept(line: string): seq<string> {
    var name := Trim(line);
    if name == [] then [] else [name]
  }

  /** The names kept from `lines`: the stripped lines that are not empty. */
  function Names(lines: seq<string>): (r: seq<string>)
    ensures |r| <= |lines|
  {
    if lines == [] then [] else Kept(lines[0]) + Names(lines[1..])
  }

  /** Names in input order, the `i`-th with rank `i + 1`. */
  function Ranked(names: seq<string>): (r: seq<Hero>)
    ensures |r| == |names|
    ensures forall i :: 0 <= i < |r| ==> r[i].name == names[i] && r[i].rank == i + 1
  {
    seq(|names|, i requires 0 <= i < |names| => Hero(names[i], i + 1))
  }

  /** Reading one more line extends the names by that line, if it is not blank. */
  lemma {:induction false} NamesAppend(lines: seq<string>, line: string)
    ensures Names(lines + [line]) == Names(lines) + Kept(line)
    decreases |lines|
  {
    if lines == [] {
      assert [] + [line] == [line];
      assert Names([line]) == Kept(line) + Names([]);
    } else {
      assert (lines + [line])[1..] == lines[1..] + [line];
      NamesAppend(lines[1..], line);
      assert Names(lines + [line]) == Kept(lines[0]) + Names(lines[1..] + [line]);
    }
  }

  /** The names kept from the first `k + 1` lines. */
  lemma NamesStep(lines: seq<string>, k: nat)
    requires k < |lines|
    ensures Names(lines[..k + 1]) == Names(lines[..k]) + Kept(lines[k])
  {
    assert lines[..k + 1] == lines[..k] + [lines[k]];
    NamesAppend(lines[..k], lines[k]);
  }

  lemma RankedAppend(names: seq<string>, name: string)
    ensures Ranked(names + [name]) == Ranked(names) + [Hero(name, |names| + 1)]
  {
  }

  /** Every kept name is non-empty and already stripped. */
  lemma {:induction false} NamesStripped(lines: seq<string>)
    ensures forall i :: 0 <= i < |Names(lines)| ==> Names(lines)[i] != [] && Trim(Names(lines)[i]) == Names(lines)[i]
    decreases |lines|
  {
    if lines != [] {
      NamesStripped(lines[1..]);
      var rest := Names(lines[1..]);
      TrimIdempotent(lines[0]);
      forall i | 0 <= i < |Names(lines)|
        ensures Names(lines)[i] != [] && Trim(Names(lines)[i]) == Names(lines)[i]
      {
        if i >= |Kept(lines[0])| {
          assert Names(lines)[i] == rest[i - |Kept(lines[0])|];
        }
      }
    }
  }

  lemma StrippedTail(lines: seq<string>)
    requires lines != []
    ensures Stripped(lines) == [Trim(lines[0])] + Stripped(lines[1..])
  {
  }

  /** The kept names are the stripped lines in input order with the blank
      ones left out. */
  lemma {:induction false} NamesInOrder(lines: seq<string>)
    ensures IsSubseq(Names(lines), Stripped(lines))
    decreases |lines|
  {
    if lines != [] {
      NamesInOrder(lines[1..]);
      StrippedTail(lines);
      var s := Stripped(lines);
      assert s[1..] == Stripped(lines[1..]);
      if Trim(lines[0]) == [] {
        assert Names(lines) == Names(lines[1..]);
      } else {
        assert Names(lines) == [s[0]] + Names(lines[1..]);
        assert Names(lines)[1..] == Names(lines[1..]);
      }
    }
  }

  /** Every non-blank stripped line is kept as often as it occurs, so
      duplicate names are not rejected, and each blank line is one name
      fewer. */
  lemma {:induction false} NamesCount(lines: seq<string>)
    ensures forall x :: x != [] ==> multiset(Names(lines))[x] == multiset(Stripped(lines))[x]
    ensures |Names(lines)| + multiset(Stripped(lines))[[]] == |lines|
    decreases |lines|
  {
    if lines != [] {
      NamesCount(lines[1..]);
      StrippedTail(lines);
      assert multiset(Stripped(lines)) == multiset{Trim(lines[0])} + multiset(Stripped(lines[1..]));
      assert multiset(Names(lines)) == multiset(Kept(lines[0])) + multiset(Names(lines[1..]));
    }
  }

  /** The loop of the rank collector, with the console lines given as `lines`.
      It stops at the first "end" line and reads nothing after it; `ended` is
      false when the input ran out before one (where the interactive program
      would fail reading the next line). The `i`-th stored hero carries the
      `i`-th non-blank stripped line and rank `i + 1`; blank lines store
      nothing and do not advance the rank. */
  method CollectRanks(lines: seq<string>) returns (heroes: seq<Hero>, consumed: nat, ended: bool)
    ensures ended <==> FirstEnd(lines) < |lines|
    ensures consumed == if ended then FirstEnd(lines) + 1 else |lines|
    ensures heroes == Ranked(Names(lines[..FirstEnd(lines)]))
    ensures forall i :: 0 <= i < |heroes| ==> heroes[i].rank == i + 1 && heroes[i].name != []
    ensures RanksAscending(heroes)
  {
    heroes := [];
    var rank := 1;
    consumed := 0;
    ended := false;
    while consumed < |lines|
      invariant consumed <= FirstEnd(lines)
      invariant heroes == Ranked(Names(lines[..consumed]))
      invariant rank == |heroes| + 1
    {
      var name := Trim(lines[consumed]);
      NamesStep(lines, consumed);
      consumed := consumed + 1;
      if Lower(name) == "end" {
        ended := true;
        break;
      }
      if name != [] {
        RankedAppend(Names(lines[..consumed - 1]), name);
        heroes := heroes + [Hero(name, rank)];
        rank := rank + 1;
      }
    }
    if !ended {
      assert lines[..consumed] == lines[..FirstEnd(lines)];
    }
    NamesStripped(lines[..FirstEnd(lines)]);
  }
}
