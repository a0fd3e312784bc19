# Hero team generator — a verified model

The repository has two console tools for a five-a-side hero game.

**Rank collector** (`hero_input.py`). The user types hero names one per line, best first. Each line is stripped. A blank line is refused. Every other line becomes a hero record `{name, rank}` with the next rank, counting from 1. A line reading `end` in any letter case stops collection.

**Team generator** (`hero_team_generator.py`). It works on that ranking in three steps:

1. **Ban phase.** The user may ban up to ten heroes by typing their exact names. Typing `done` in any case ends the phase early.
2. **Tiers.** The heroes still eligible are cut into five contiguous tiers, T1 (best) to T5.
3. **Team.** Up to two heroes are drawn at random from each tier.

The model covers these four pieces of logic as imperative Dafny. Each loop of the source is a method with a loop invariant. Each method is proved equal to a specification function, and the properties the tools promise are proved about those functions as lemmas.

| module | file | models |
|---|---|---|
| `Text` | `text.dfy` | `str.strip()` and `str.lower()` on ASCII |
| `Heroes` | `heroes.dfy` | the hero record; list facts: no repeats, rank order, remove-at-position, order-keeping sublists |
| `TierPartition` | `tier_partition.dfy` | `divide_heroes_into_tiers` |
| `TeamComposer` | `team_composer.dfy` | `select_team_from_tiers` and `random.sample` |
| `BanEngine` | `ban_engine.dfy` | `ban_heroes` |
| `HeroInput` | `hero_input.dfy` | the `main` loop of `hero_input.py` |

## How the console is modelled

**Input.** Console input is a sequence of lines, `lines: seq<string>`. Each method also returns how many lines it read.

**End of input.** When the lines run out before the stop word, the Python program would fail with `EOFError` on the next `input()`. The model returns instead, with an explicit end reason:

- `InputExhausted` in the ban phase;
- `ended == false` in the rank collector.

**Random draws.** `random.sample(pool, k)` becomes the method `TeamComposer.Sample`. It picks `k` distinct positions of the pool with a nondeterministic choice, so every outcome the library can produce is a possible outcome of the model. `TeamComposer.SelectTeam` returns the positions it drew, and the team is proved to be the function `Team` of the tiers and those positions.

**Tiers.** The dict of tiers is a sequence of `Tier(key, heroes)` records in insertion order, T1 first. Python iterates a dict in that order.

**Copies.** Lists are values, so neither the caller's roster nor the tiers can be changed by a callee. This is what `heroes.copy()` at `hero_team_generator.py:87` secures in the source.

## What the tier sizes really are

`divide_heroes_into_tiers` asks for these counts for `n` heroes (`Requested`):

- `n // 5 + 1` for each of the first `n % 5` tiers among T1..T4;
- `n // 5` for each other tier among T1..T4;
- `n // 5 + 1` for T5 whenever `n % 5 > 0`, and `n // 5` otherwise.

So the requests add up to `n + 1` whenever `n % 5 > 0` (`RequestedTotal`). The slice for T5 then runs past the end of the list, and Python cuts it short. The model keeps the source's counts and clamps the slice bounds the way Python does (`PySlice`). It then proves three things:

- the five slices are exactly the closed-form tiers (`RequestedSlice`, `DivideIntoTiers`);
- joined in order, they are the whole roster, not merely a prefix of it (`PartitionCovers`);
- T5 holds only `n // 5` heroes (`PartitionShape`).

## Model

| member | source | states |
|---|---|---|
| Text.TrimLeft | hero_team_generator.py:90 | the front half of `strip()`: drops leading whitespace and never lengthens the line (TrimLeftSpec says exactly what it drops) |
| Text.TrimRight | hero_team_generator.py:90 | the back half of `strip()`: drops trailing whitespace and never lengthens the line (TrimRightSpec says exactly what it drops) |
| Text.Trim | hero_team_generator.py:90 | a stripped query neither starts nor ends with whitespace and is no longer than the line |
| Text.TrimLeftSpec | hero_team_generator.py:90 | stripping the front keeps a suffix of the line, drops only whitespace, and stops at the first other character |
| Text.TrimRightSpec | hero_team_generator.py:90 | stripping the back keeps a prefix of the line, drops only whitespace, and stops at the last other character |
| Text.TrimBlank | hero_input.py:16-21 | a line strips to the empty string exactly when every character of it is whitespace, so exactly those lines are refused |
| Text.TrimIdempotent | hero_input.py:16 | stripping an already stripped name changes nothing |
| Text.Lower | hero_team_generator.py:92 | `str.lower()` keeps the length of the string; LowerAt states what happens to each character |
| Text.LowerAt | hero_team_generator.py:92 | `lower()` maps each character on its own: position `i` of the result is the lowered character `i` |
| Text.LowerEq | hero_team_generator.py:92 | `s.lower() == w` exactly when the lengths agree and every character of `s` lowers to the matching one of `w` |
| Text.LowerToLetter | hero_input.py:18 | a character lowers to a lower-case letter exactly when it is that letter or its upper-case form, so `done`/`end` are accepted in any case and nothing else is |
| Heroes.RemoveAt | hero_team_generator.py:107 | removing position `i` keeps the elements before `i` in place and moves the later ones up by one |
| Heroes.RemoveAtMultiset | hero_team_generator.py:107 | removing one position loses that element and nothing else |
| Heroes.RemoveAtSubseq | hero_team_generator.py:107 | removing one position keeps the others in their relative order |
| TierPartition.Requested | hero_team_generator.py:37-39 | the count the loop asks for tier `k` is the size the tier really gets, plus one surplus slot for T5 exactly when `n % 5 > 0` |
| TierPartition.Label | hero_team_generator.py:42 | the key of tier `k` is the two characters `T` and the digit `k` |
| TierPartition.PySlice | hero_team_generator.py:42 | a Python slice `s[lo:hi]` has length `min(hi, len) - lo` when `lo < hi` and `lo < len` (otherwise 0), and element `i` is `s[lo + i]` |
| TierPartition.StartClosed | hero_team_generator.py:29-43 | tier `k + 1` starts after `k` base shares plus one extra hero for each of the first `min(k, n % 5)` tiers |
| TierPartition.StartBounds | hero_team_generator.py:41-43 | tier start indices never pass the roster's end, and the five tiers end exactly at it |
| TierPartition.RequestedSlice | hero_team_generator.py:35-43 | slicing each tier's requested count from the running start index yields the closed-form tier; T5's surplus slot falls past the end |
| TierPartition.DivideIntoTiers | hero_team_generator.py:22-45 | the loop returns exactly the closed-form partition, and the five tiers joined in order are the input roster |
| TierPartition.MembersPrefix | hero_team_generator.py:33-43 | the first `k` tiers joined are the roster up to the start of tier `k + 1` |
| TierPartition.PartitionCovers | hero_team_generator.py:33-45 | nothing is skipped, repeated or reordered: T1 ++ T2 ++ T3 ++ T4 ++ T5 is the whole roster |
| TierPartition.PartitionShape | hero_team_generator.py:29-43 | five tiers keyed T1..T5 in order; tier k of T1..T4 holds `n // 5` heroes plus one when `k <= n % 5`; T5 holds `n // 5` although `n // 5 + 1` was requested whenever `n % 5 > 0` |
| TierPartition.RequestedTotal | hero_team_generator.py:35-40 | the requested counts add up to `n + 1` when `n % 5 > 0` and to `n` otherwise |
| TierPartition.TwelveHeroes | hero_team_generator.py:29-43 | for twelve heroes T5 requests three slots, and the tiers are heroes 0-2, 3-5, 6-7, 8-9 and 10-11 |
| TierPartition.PartitionAt | hero_team_generator.py:42 | hero `i` of tier `k + 1` is the roster's hero at `Start(n, k) + i` |
| TierPartition.PartitionRankOrder | hero_team_generator.py:22-45 | on a rank-ordered roster every hero of a better tier has a better rank than every hero of a worse tier |
| TeamComposer.Pick | hero_team_generator.py:58 | the picked heroes are the pool's heroes at the drawn positions, in draw order |
| TeamComposer.Sample | hero_team_generator.py:57-58 | `random.sample` returns exactly `count` heroes taken from distinct in-range positions of the pool |
| TeamComposer.SelectTeam | hero_team_generator.py:47-65 | every tier gets a draw of `min(2, len(tier))` distinct positions (none for an empty tier), and the team is those picks joined in tier order |
| TeamComposer.TeamSize | hero_team_generator.py:52-60 | the team has exactly the sum of `min(2, len(tier))` heroes, at most two per tier |
| TeamComposer.FullTiers | hero_team_generator.py:57 | tiers of at least two heroes contribute two each |
| TeamComposer.TeamFromTiers | hero_team_generator.py:52-60 | every team member belongs to one of the tiers |
| TeamComposer.PickNoDup | hero_team_generator.py:58 | distinct positions of a list without repeats give distinct heroes |
| TeamComposer.TeamNoDup | hero_team_generator.py:52-60 | when no hero appears twice across the tiers, none appears twice in the team |
| TeamComposer.PartitionTeam | hero_team_generator.py:47-65 | a team drawn from a roster's tiers has at most ten heroes, exactly ten when the roster has ten or more, and no repeats when the roster has none |
| BanEngine.FirstMatch | hero_team_generator.py:99-103 | the search finds the first eligible hero whose name equals the query exactly, or reports that no name matches |
| BanEngine.IsDoneWord | hero_team_generator.py:92-93 | the test that ends the ban phase: the stripped query lowers to `done`, so only a four-character query passes |
| BanEngine.FindHero | hero_team_generator.py:99-103 | the search loop finds nothing exactly when no name matches, and otherwise the first matching hero |
| BanEngine.IndexOf | hero_team_generator.py:107 | the position `list.remove` removes at: the hero is there, and no earlier element equals it |
| BanEngine.RemoveFirst | hero_team_generator.py:107 | `list.remove(x)`, called with a hero known to be in the list, removes it at the first position holding it and keeps every other element in order |
| BanEngine.RemoveFirstMatch | hero_team_generator.py:99-107 | removing the found hero by value removes it at the position where the search found it |
| BanEngine.Ban | hero_team_generator.py:95-107 | one query bans at most one hero and never undoes an earlier ban |
| BanEngine.BanEffect | hero_team_generator.py:95-107 | an empty query, or one matching no eligible name, changes nothing; otherwise the first hero of that name leaves `available` at its position and is appended to `banned` |
| BanEngine.BanKeepsHeroes | hero_team_generator.py:105-107 | one ban loses no hero and gains none, and the eligible heroes keep their order |
| BanEngine.BanRun | hero_team_generator.py:89-115 | the ban loop as a state machine over the lines still to read: stop at the cap, at the end of input or on `done`; skip an empty query; otherwise ban by exact name; it never reads more lines than there are |
| BanEngine.BanRunCap | hero_team_generator.py:89-112 | never more than ten bans; the phase ends by the cap exactly when ten heroes are banned; earlier bans stay in place |
| BanEngine.BanRunKeepsHeroes | hero_team_generator.py:86-124 | `banned ++ available` is always a permutation of the starting heroes, and `available` keeps its relative order |
| BanEngine.BanRunLength | hero_team_generator.py:89-96 | when the phase ends for want of input, it has read every line |
| BanEngine.BanRunEndsOnDone | hero_team_generator.py:90-93 | when the phase ends on `done`, that line is the last one read |
| BanEngine.BanRunNoEarlierDone | hero_team_generator.py:89-93 | no line read before the one that ends the phase is a `done` line |
| BanEngine.BanHeroes | hero_team_generator.py:74-124 | the loop ends in exactly the state machine's outcome; at most ten bans, ten exactly when it stops at the cap; `banned ++ available` is a permutation of the roster; `available` keeps the roster's order |
| BanEngine.BanDisjoint | hero_team_generator.py:86-124 | for a roster without repeats, no hero is both banned and eligible, neither list repeats a hero, and every roster hero is in one of them |
| BanEngine.BanKeepsRankOrder | hero_team_generator.py:86-124 | banning keeps a rank-ordered roster rank-ordered |
| HeroInput.IsEnd | hero_input.py:16-19 | the test that ends collection: the stripped line lowers to `end`, so only a three-character stripped line passes |
| HeroInput.FirstEnd | hero_input.py:15-19 | the first `end` line's position: no earlier line is an `end` line, and the line there is one unless no line is |
| HeroInput.Names | hero_input.py:16-29 | the names kept from the lines: each line's stripped form, blank ones left out, so never more names than lines (NamesInOrder and NamesCount characterise it) |
| HeroInput.Ranked | hero_input.py:22-27 | the `i`-th stored hero carries the `i`-th name and rank `i + 1` |
| HeroInput.NamesAppend | hero_input.py:15-29 | reading one more line adds its stripped form to the names, unless it is blank |
| HeroInput.NamesStripped | hero_input.py:16-21 | every stored name is non-empty and already stripped |
| HeroInput.NamesInOrder | hero_input.py:15-29 | the stored names are the stripped lines in input order with the blank ones left out |
| HeroInput.NamesCount | hero_input.py:21-29 | a non-blank stripped line is stored as often as it occurs (duplicates are not refused), and each blank line is one hero fewer |
| HeroInput.CollectRanks | hero_input.py:7-30 | the loop stops at the first `end` line and reads nothing after it; the heroes are the non-blank stripped lines before it, ranked 1, 2, 3, … in input order; a blank line does not advance the rank |

## Left out

- `load_heroes` (hero_team_generator.py:8-20): reads and decodes a JSON file; file I/O is outside the model.
- `print_team_summary` (hero_team_generator.py:67-72), every `print` and every prompt text: console output only.
- `main` of hero_team_generator.py (126-166): it strings the modelled steps together and prints warnings; it is not modelled. Two of its steps are not captured: it stops when no hero remains after the ban phase, and it draws the two teams as two independent calls of `SelectTeam`, so one hero may appear in both teams.
- The warning for fewer than ten heroes (hero_team_generator.py:25-26) only prints and changes nothing.
- The JSON save and the summary print of hero_input.py (31-41): file output.
- hero_input.py:44 names `main` without calling it, so the script does nothing when run; the model covers the loop, not the entry point.
- opgg_aram_scraper.py is not part of this model: it fetches web pages and parses HTML through libraries that are not available here.
- TeamComposer.Sample: states which draws are possible, not that `random.sample` makes them with equal probability.
- Text.Trim: strips ASCII whitespace only; Python's `str.strip()` also strips Unicode spaces such as U+00A0 and U+3000.
- Text.LowerEq: `Lower` lowers ASCII letters only; Python's `str.lower()` also lowers other alphabets. This makes no difference to the `done`/`end` comparisons, but a name is compared as it was typed.
- BanEngine.BanHeroes: the prints of the ban phase are dropped. When the input runs out, the model returns with `InputExhausted` instead of raising `EOFError`.
- HeroInput.CollectRanks: when the input runs out before `end`, the model returns with `ended == false` instead of raising `EOFError`.
- BanEngine.RemoveFirst: requires the hero to be in the list. Python's `list.remove` raises `ValueError` for an absent element, but hero_team_generator.py:107 only removes a hero the search at 99-103 has just found there.
