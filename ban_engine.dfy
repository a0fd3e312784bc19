/** `ban_heroes`: before the tiers are cut, the user may remove up to ten
    heroes from the roster by typing their names, one console line each. */
module BanEngine {
  import opened Heroes
  import opened Text

  /** The largest number of bans the phase accepts. */
  const MaxBans: nat := 10

  /** The two lists the phase maintains: the heroes still eligible and the
      heroes banned so far, in ban order. */
  datatype BanState = BanState(available: seq<Hero>, banned: seq<Hero>)

  /** Why the phase ended: a "done" line, the tenth ban, or the input ran out
      (where the interactive program would fail reading the next line). */
  datatype BanEnd = Done | LimitReached | InputExhausted

  /** The final state and how many input lines the phase read. */
  datatype BanOutcome = BanOutcome(state: BanState, consumed: nat, end: BanEnd)

  /** A stripped query that ends the phase: "done" in any letter case, so
      only a four-character query can end it. */
  predicate IsDoneWord(query: string)
    ensures IsDoneWord(query) ==> |query| == 4
  {
    Lower(query) == "done"
  }

  /** A line that ends the phase, once stripped. */
  predicate IsDone(line: string) {
    IsDoneWord(Trim(line))
  }

  /** The position of the first hero in `pool` whose name is exactly `name`. */
  function FirstMatch(pool: seq<Hero>, name: string): (r: Option<nat>)
    ensures r.Some? ==> r.value < |pool| && pool[r.value].name == name &&
                        forall j :: 0 <= j < r.value ==> pool[j].name != name
    ensures r.None? ==> forall j :: 0 <= j < |pool| ==> pool[j].name != name
  {
    if pool == [] then None
    else if pool[0].name == name then Some(0)
    else
      match FirstMatch(pool[1..], name)
      case None => None
      case Some(i) => Some(i + 1)
  }

  /** The position of the first element equal to `x`. */
  function IndexOf(s: seq<Hero>, x: Hero): (i: nat)
    requires x in s
    ensures i < |s| && s[i] == x
    ensures forall j :: 0 <= j < i ==> s[j] != x
  {
    if s[0] == x then 0 else 1 + IndexOf(s[1..], x)
  }

  /** `list.remove(x)`: drops the first element equal to `x`. The source
      only ever removes a hero it has just found in the list, and Python
      raises an error for an absent one, so `x` must be present. */
  function RemoveFirst(s: seq<Hero>, x: Hero): (r: seq<Hero>)
    requires x in s
    ensures r == RemoveAt(s, IndexOf(s, x))
    ensures exists i :: 0 <= i < |s| && s[i] == x && x !in s[..i] && r == RemoveAt(s, i)
  {
    var i := IndexOf(s, x);
    assert x !in s[..i];
    if s[0] == x then s[1..]
    else
      RemoveAtTail(s, i);
      [s[0]] + RemoveFirst(s[1..], x)
  }

  /** Removing the hero found by name removes it at the position where it was
      found: every earlier hero has another name, so none of them equals it. */
  lemma RemoveFirstMatch(s: seq<Hero>, name: string, i: nat)
    requires FirstMatch(s, name) == Some(i)
    ensures RemoveFirst(s, s[i]) == RemoveAt(s, i)
  {
    assert IndexOf(s, s[i]) == i;
  }

  /** One stripped, non-"done" query: the first eligible hero whose name is
      exactly the query moves from `available` to the end of `banned`. At
      most one hero is banned, and earlier bans stay as they were. */
  function Ban(st: BanState, query: string): (r: BanState)
    ensures |st.banned| <= |r.banned| <= |st.banned| + 1
    ensures r.banned[..|st.banned|] == st.banned
  {
    if query == [] then st
    else
      match FirstMatch(st.available, query)
      case None => st
      case Some(i) =>
        var found := st.available[i];
        BanState(RemoveFirst(st.available, found), st.banned + [found])
  }

  /** An empty query, or one that names no eligible hero exactly, changes
      nothing; otherwise the first eligible hero of that name is taken out of
      `available` at its position and appended to `banned`. */
  lemma BanEffect(st: BanState, query: string)
    ensures query == [] || (forall h :: h in st.available ==> h.name != query) ==> Ban(st, query) == st
    ensures query != [] && (exists h :: h in st.available && h.name == query) ==>
              exists i :: 0 <= i < |st.available| && st.available[i].name == query &&
                          (forall j :: 0 <= j < i ==> st.available[j].name != query) &&
                          Ban(st, query) == BanState(RemoveAt(st.available, i), st.banned + [st.available[i]])
  {
    if query != [] {
      match FirstMatch(st.available, query)
      case None =>
      case Some(i) =>
        RemoveFirstMatch(st.available, query, i);
    }
  }

  /** A ban loses no hero and gains none, and the eligible heroes keep their
      relative order. */
  lemma BanKeepsHeroes(st: BanState, query: string)
    ensures multiset(Ban(st, query).banned + Ban(st, query).available) == multiset(st.banned + st.available)
    ensures IsSubseq(Ban(st, query).available, st.available)
  {
    SubseqRefl(st.available);
    if query != [] {
      match FirstMatch(st.available, query)
      case None =>
      case Some(i) =>
        RemoveFirstMatch(st.available, query, i);
        RemoveAtMultiset(st.available, i);
        RemoveAtSubseq(st.available, i);
    }
  }

  /** The ban loop over the lines still to be read, as a state machine. */
  function BanRun(st: BanState, lines: seq<string>): (r: BanOutcome)
    ensures r.consumed <= |lines|
    decreases |lines|
  {
    if |st.banned| >= MaxBans then BanOutcome(st, 0, LimitReached)
    else if lines == [] then BanOutcome(st, 0, InputExhausted)
    else
      var query := Trim(lines[0]);
      if IsDoneWord(query) then BanOutcome(st, 1, Done)
      else
        var next := Ban(st, query);
        if |next.banned| > |st.banned| && |next.banned| == MaxBans then
          BanOutcome(next, 1, LimitReached)
        else
          var o := BanRun(next, lines[1..]);
          BanOutcome(o.state, o.consumed + 1, o.end)
  }

  /** Never more than ten bans, the phase stops for the tenth, and earlier
      bans are never undone. */
  lemma {:induction false} BanRunCap(st: BanState, lines: seq<string>)
    requires |st.banned| <= MaxBans
    ensures var o := BanRun(st, lines);
            |o.state.banned| <= MaxBans &&
            (o.end == LimitReached <==> |o.state.banned| == MaxBans) &&
            |st.banned| <= |o.state.banned| && o.state.banned[..|st.banned|] == st.banned
    decreases |lines|
  {
    if |st.banned| < MaxBans && lines != [] && !IsDone(lines[0]) {
      var next := Ban(st, Trim(lines[0]));
      if !(|next.banned| > |st.banned| && |next.banned| == MaxBans) {
        BanRunCap(next, lines[1..]);
        var o' := BanRun(next, lines[1..]);
        assert o'.state.banned[..|st.banned|] == o'.state.banned[..|next.banned|][..|st.banned|];
      }
    }
  }

  /** The two lists always hold exactly the heroes the phase started with, and
      the eligible heroes keep their relative order. */
  lemma {:induction false} BanRunKeepsHeroes(st: BanState, lines: seq<string>)
    ensures var o := BanRun(st, lines);
            multiset(o.state.banned + o.state.available) == multiset(st.banned + st.available) &&
            IsSubseq(o.state.available, st.available)
    decreases |lines|
  {
    if |st.banned| >= MaxBans || lines == [] || IsDone(lines[0]) {
      SubseqRefl(st.available);
    } else {
      var next := Ban(st, Trim(lines[0]));
      BanKeepsHeroes(st, Trim(lines[0]));
      if !(|next.banned| > |st.banned| && |next.banned| == MaxBans) {
        BanRunKeepsHeroes(next, lines[1..]);
        SubseqTrans(BanRun(next, lines[1..]).state.available, next.available, st.available);
      }
    }
  }

  /** The phase reads no more lines than there are, and all of them when it
      ends for want of input. */
  lemma {:induction false} BanRunLength(st: BanState, lines: seq<string>)
    ensures var o := BanRun(st, lines);
            o.end == InputExhausted ==> o.consumed == |lines|
    decreases |lines|
  {
    if |st.banned| < MaxBans && lines != [] && !IsDone(lines[0]) {
      var next := Ban(st, Trim(lines[0]));
      if !(|next.banned| > |st.banned| && |next.banned| == MaxBans) {
        BanRunLength(next, lines[1..]);
      }
    }
  }

  /** When the phase ends on a "done" line, that line is the last one read. */
  lemma {:induction false} BanRunEndsOnDone(st: BanState, lines: seq<string>)
    ensures var o := BanRun(st, lines);
            o.end == Done ==> 0 < o.consumed <= |lines| && IsDone(lines[o.consumed - 1])
    decreases |lines|
  {
    if |st.banned| < MaxBans && lines != [] && !IsDone(lines[0]) {
      var next := Ban(st, Trim(lines[0]));
      if !(|next.banned| > |st.banned| && |next.banned| == MaxBans) {
        BanRunEndsOnDone(next, lines[1..]);
        var o' := BanRun(next, lines[1..]);
        if o'.end == Done {
          assert lines[o'.consumed] == lines[1..][o'.consumed - 1];
        }
      }
    }
  }

  /** No line read before the one that ends the phase is a "done" line. */
  lemma {:induction false} BanRunNoEarlierDone(st: BanState, lines: seq<string>)
    ensures var o := BanRun(st, lines);
            forall j :: 0 <= j < |lines| && j < (if o.end == Done then o.consumed - 1 else o.consumed) ==>
              !IsDone(lines[j])
    decreases |lines|
  {
    if |st.banned| < MaxBans && lines != [] && !IsDone(lines[0]) {
      var next := Ban(st, Trim(lines[0]));
      if !(|next.banned| > |st.banned| && |next.banned| == MaxBans) {
        BanRunNoEarlierDone(next, lines[1..]);
        var o := BanRun(st, lines);
        forall j | 0 < j < |lines| && j < (if o.end == Done then o.consumed - 1 else o.consumed)
          ensures !IsDone(lines[j])
        {
          assert lines[j] == lines[1..][j - 1];
        }
      }
    }
  }

  /** The inner `for hero in available_heroes` search. */
  method FindHero(available: seq<Hero>, query: string) returns (found: Option<Hero>)
    ensures found.None? <==> FirstMatch(available, query).None?
    ensures found.Some? ==> found.value == available[FirstMatch(available, query).value]
  {
    found := None;
    var j := 0;
    while j < |available|
      invariant j <= |available| && found == None
      invariant forall k :: 0 <= k < j ==> available[k].name != query
    {
      if available[j].name == query {
        found := Some(available[j]);
        assert FirstMatch(available, query) == Some(j);
        break;
      }
      j := j + 1;
    }
  }

  /** `ban_heroes(heroes)` reading its console lines from `lines`. It works on
      a copy of the roster, strips each line, stops at "done" in any case,
      skips empty lines, bans the first eligible hero with exactly that name,
      and stops once ten heroes are banned. */
  method BanHeroes(heroes: seq<Hero>, lines: seq<string>)
    returns (available: seq<Hero>, banned: seq<Hero>, consumed: nat, end: BanEnd)
    ensures BanOutcome(BanState(available, banned), consumed, end) == BanRun(BanState(heroes, []), lines)
    ensures |banned| <= MaxBans
    ensures end == LimitReached <==> |banned| == MaxBans
    ensures multiset(banned + available) == multiset(heroes)
    ensures IsSubseq(available, heroes)
  {
    banned := [];
    available := heroes;
    consumed := 0;
    end := LimitReached;
    ghost var whole := BanRun(BanState(heroes, []), lines);
    while |banned| < MaxBans
      invariant consumed <= |lines| && |banned| <= MaxBans
      invariant var o := BanRun(BanState(available, banned), lines[consumed..]);
                whole == BanOutcome(o.state, o.consumed + consumed, o.end)
      decreases |lines| - consumed
    {
      if consumed == |lines| {
        end := InputExhausted;
        break;
      }
      ghost var st := BanState(available, banned);
      ghost var rest := lines[consumed..];
      assert rest[0] == lines[consumed] && rest[1..] == lines[consumed + 1..];
      var query := Trim(lines[consumed]);
      consumed := consumed + 1;
      if IsDoneWord(query) {
        end := Done;
        break;
      }
      if query == [] {
        continue;
      }
      var found := FindHero(available, query);
      if found.Some? {
        banned := banned + [found.value];
        available := RemoveFirst(available, found.value);
        if |banned| == MaxBans {
          end := LimitReached;
          break;
        }
      }
    }
    BanRunCap(BanState(heroes, []), lines);
    BanRunKeepsHeroes(BanState(heroes, []), lines);
    assert [] + heroes == heroes;
  }

  /** With no hero listed twice, no hero is both banned and still eligible,
      and every hero of the roster is one or the other. */
  lemma BanDisjoint(heroes: seq<Hero>, lines: seq<string>)
    requires NoDup(heroes)
    ensures var s := BanRun(BanState(heroes, []), lines).state;
            NoDup(s.banned) && NoDup(s.available) &&
            (forall h :: h in s.banned ==> h !in s.available) &&
            (forall h :: h in heroes <==> h in s.banned || h in s.available)
  {
    var s := BanRun(BanState(heroes, []), lines).state;
    BanRunKeepsHeroes(BanState(heroes, []), lines);
    assert [] + heroes == heroes;
    PermutationNoDup(heroes, s.banned + s.available);
    NoDupConcat(s.banned, s.available);
    forall h
      ensures h in heroes <==> h in s.banned || h in s.available
    {
      assert h in heroes <==> h in multiset(heroes);
      assert h in s.banned + s.available <==> h in multiset(s.banned + s.available);
    }
  }

  /** Banning keeps the eligible roster in rank order. */
  lemma BanKeepsRankOrder(heroes: seq<Hero>, lines: seq<string>)
    requires RanksAscending(heroes)
    ensures RanksAscending(BanRun(BanState(heroes, []), lines).state.available)
  {
    BanRunKeepsHeroes(BanState(heroes, []), lines);
    SubseqAscending(BanRun(BanState(heroes, []), lines).state.available, heroes);
  }
}
