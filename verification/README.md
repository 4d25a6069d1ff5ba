# k-tape Turing machine simulator — Dafny model

This project models the engine of `ktapesim_mchou3.py`, a simulator for
deterministic k-tape Turing machines. The model covers five parts of the
`ktape` class.

**The constructor.** Tape 0 holds the input, one character per cell. Every
other tape holds a single blank `_`. All heads start on cell 0. The tape
alphabet is the set of symbols on the tapes together with the wildcard `*`
and the blank.

**Transition registration.** A raw record has 3k+2 fields: the state, the k
symbols read, the next state, the k symbols written and the k movement codes.
How a record is registered depends on whether it contains `*`:

- A record without `*` is sliced into a key and an entry and stored in a map.
  A later record with the same key overwrites the earlier one.
- A record with `*` anywhere is first rewritten once for each symbol c of the
  tape alphabet other than `*`. Each rewrite puts c into every `*` field. Each
  rewritten record is then registered.

**The write-and-move of every tape.** It emulates a tape that is infinite in
both directions:

- moving right off the last cell appends a blank;
- moving left off cell 0 prepends a blank and leaves the head on cell 0.

**One step.** A step reads the k symbols under the heads and looks up the
rule for the current state and that reading. It then writes, moves and
changes state. If no rule exists, the run stops and the input is not
accepted.

**The run loop.** The machine steps while tape 0's head reads a non-blank
symbol. It then takes exactly one more step. The input is accepted iff the
state reached is an accept state.

The model is written as immutable datatypes and pure functions. The parts
are split across these files:

- `tapes.dfy` has two modules:
  - `Wrappers`: `Option`.
  - `Tapes`: symbols, the movement codes `L`/`R`/`S` with their offsets
    -1/+1/0, a tape as a `Track` (its cells and its head), and the
    write-and-move.
- `rules.dfy` (`Rules`): raw records, keys, entries, the table, wildcard
  rewriting and registration.
- `registration.dfy` (`Registration`): what registration does to the table.
- `engine.dfy` (`Engine`): the machine, its initial configuration and one
  step.
- `simulation.dfy` (`Simulation`): the fuel-bounded run loop, and its
  soundness and completeness against the step-by-step semantics.
- `scenarios.dfy` (`Scenarios`): small concrete machines worked through the
  model.

Python iterates the tape alphabet in whatever order its `set` yields. The
model takes that order as a parameter `order`, a sequence listing the
alphabet. Two results depend on where the wildcard sits:

- When `*` is among the key fields (the state and the symbols read), the
  table built is the same for every order.
- When `*` is only among the value fields, every rewritten record has the
  same key. The entry left under it is then the record rewritten with some
  alphabet symbol, namely the one iterated last.

## Model

| member | source | states |
|---|---|---|
| Tapes.Code | code/ktapesim_mchou3.py:18-20 | Every movement has a code that parses back to it. |
| Tapes.ParseMove | code/ktapesim_mchou3.py:18-20 | Exactly the codes `L`, `R` and `S` name a movement. |
| Tapes.ParseMoveInverse | code/ktapesim_mchou3.py:18-20 | Printing a parsed code gives the code back, so codes and movements correspond one to one. |
| Tapes.WriteMove | code/ktapesim_mchou3.py:95-103 | A head on a cell stays on a cell after the write-and-move. The tape never shrinks and grows by at most one cell. The head moves by the movement's offset, plus one when a cell was prepended in front of it. |
| Tapes.WriteMoveSpec | code/ktapesim_mchou3.py:97-103 | The tape grows exactly when R leaves the last cell or L leaves cell 0. A prepended cell is blank and holds the head. An appended cell is blank and holds the head. The written symbol lands under the old head. Every other cell keeps its symbol, shifted one index right when a cell was prepended. |
| Tapes.WriteMoveIsInfiniteTape | code/ktapesim_mchou3.py:95-103 | Read as a tape infinite in both directions, blank off the physical cells, a write-and-move changes only the old head's position, which now holds the written symbol. The logical head moves by exactly the movement's offset. |
| Rules.EntryOf | code/ktapesim_mchou3.py:70 | The entry of a record: field k+1 is the next state, fields k+2..2k+1 are the symbols written, and the last k fields are the movements whose codes they are. |
| Rules.RegisterConcrete | code/ktapesim_mchou3.py:70 | Storing a record adds its key `(raw[0], raw[1..k])` and maps it to the record's entry, overwriting any earlier entry. All other entries stay unchanged, and every entry still covers k tapes. |
| Rules.Subst | code/ktapesim_mchou3.py:60 | Substituting a non-wildcard symbol keeps the record's length, leaves every non-wildcard field unchanged and keeps a well-formed record well formed. |
| Rules.ReplaceWildcards | code/ktapesim_mchou3.py:55-61 | The rewritten records are exactly the record rewritten with each symbol of the alphabet other than `*`. |
| Rules.RewrittenShape | code/ktapesim_mchou3.py:55-61 | A rewritten record has the original's length and contains no `*`. It keeps every non-wildcard field and puts one and the same alphabet symbol into every wildcard field. So the recursion of registration is one level deep. |
| Rules.MakeTransition | code/ktapesim_mchou3.py:63-70 | Registration keeps every entry covering k tapes. A record without `*` is stored as is. |
| Rules.MakeEach | code/ktapesim_mchou3.py:66-67 | Registering records in turn adds exactly their keys. Entries under other keys are untouched. |
| Rules.RewrittenWellFormed | code/ktapesim_mchou3.py:55-61 | Every rewritten record of a well-formed record is well formed and wildcard free. |
| Registration.ExpansionCount | code/ktapesim_mchou3.py:55-61 | For an iteration order without repeats, a record is rewritten once per listed symbol other than `*`. |
| Registration.AlphabetExpansion | code/ktapesim_mchou3.py:47-61 | Iterating the alphabet the constructor builds, a record is rewritten once per alphabet symbol other than `*`. The rewrites are the one with the blank `_`, one with each input character that is not `*`, and no others. |
| Registration.ExpansionDistinct | code/ktapesim_mchou3.py:55-61 | The rewritten records of a record with a wildcard are pairwise different. |
| Registration.SubstInjective | code/ktapesim_mchou3.py:60 | Different symbols give different rewrites of a record with a wildcard. |
| Registration.MakeEachLastWins | code/ktapesim_mchou3.py:66-70 | After records are registered in turn, a record's key holds that record's entry when no later record with the same key stores a different entry (last write wins). |
| Registration.WildcardInKey | code/ktapesim_mchou3.py:63-70 | With `*` among the key fields, the table gains exactly the rewritten keys. Each rewritten key holds its own rewritten entry, and all other entries are unchanged. |
| Registration.OrderIrrelevant | code/ktapesim_mchou3.py:57 | With `*` among the key fields, any two orders of the alphabet build the same table. |
| Registration.WildOnlyInValue | code/ktapesim_mchou3.py:57-70 | With `*` only among the value fields, the table gains just the record's key. That key holds the record rewritten with some non-wildcard alphabet symbol, and nothing else changes. |
| Registration.MakeEachOverride | code/ktapesim_mchou3.py:66-70 | Registering records into a table overrides that table with what the same records build from an empty table. |
| Registration.MakeTransitionIdempotent | code/ktapesim_mchou3.py:63-70 | Registering the same record twice leaves the table as registering it once. |
| Engine.New | code/ktapesim_mchou3.py:38-53 | Tape 0 holds the input characters and every other tape holds one blank. All heads are 0, the state is the start state and the table is empty. The configuration can be read iff the input is non-empty. The alphabet is exactly the input characters plus `*` and `_`. |
| Engine.Step | code/ktapesim_mchou3.py:72-93 | A step is stuck iff the table has no rule for the current state and reading, and a stuck step reports both. Otherwise the next state is the rule's next state and every head stays on its tape. |
| Engine.StepTapes | code/ktapesim_mchou3.py:88-103 | In a step that found a rule, every tape grows by at most one cell and never shrinks. The rule's symbol lands under the old head, and the head moves by the rule's movement. |
| Simulation.Decide | code/ktapesim_mchou3.py:117-120 | The verdict is acceptance iff the final state is an accept state. |
| Simulation.Run | code/ktapesim_mchou3.py:106-120 | An accepted run ends in an accept state and a rejected run does not. Both end after 1..fuel completed steps with every head on its tape. A run stuck without a rule stops before the fuel runs out. |
| Simulation.RunSound | code/ktapesim_mchou3.py:112-120 | Each verdict is explained by the step-by-step semantics. Accept and reject come from the step taken once tape 0 first reads blank, after the loop ran. No transition comes from a stuck step after the loop ran. Running out of fuel means the loop ran for the whole fuel. |
| Simulation.RunComplete | code/ktapesim_mchou3.py:112-120 | When the loop body runs n times and the fuel exceeds n, the run ends with the step from the n-th configuration. A stuck step there gives no transition. A step there from a blank on tape 0 decides acceptance. |
| Simulation.LoopsUnfold | code/ktapesim_mchou3.py:112-114 | n loop iterations are one iteration from a non-blank reading followed by n-1 iterations. |
| Simulation.LoopsFold | code/ktapesim_mchou3.py:112-114 | One iteration from a non-blank reading followed by n iterations is n+1 iterations. |
| Simulation.RunFuelMonotone | code/ktapesim_mchou3.py:112-115 | More fuel never changes the verdict of a run that finished. |
| Scenarios.AcceptsAb | code/ktapesim_mchou3.py:106-120 | The one-tape machine built for "ab", with its own accept list and three rules, accepts after three steps. Moving right off the `b` appends a blank. |
| Scenarios.AcceptsAbWith | code/ktapesim_mchou3.py:95-120 | Any table with the three rules of that machine accepts "ab" in three steps and ends on `a b _` with the head on the blank. |
| Scenarios.MissingRuleStops | code/ktapesim_mchou3.py:75-81 | The same machine without its rule for the blank stops with no transition for `q1` reading `_`. |
| Scenarios.MissingRuleStopsWith | code/ktapesim_mchou3.py:72-81 | Any table with the first two rules and none for `q1` reading `_` stops after two steps with no transition for that pair. |
| Scenarios.OrderListsAlphabet | code/ktapesim_mchou3.py:47-50 | The order `a`, `b`, `*`, `_` lists the alphabet of the machine built for "ab", each symbol once. |
| Scenarios.WildRuleRewrites | code/ktapesim_mchou3.py:55-61 | Over the alphabet of "ab", the record `q,*,q2,*,R` is rewritten with `a`, `b` and `_` but not with `*`. |
| Scenarios.WildcardRuleExpands | code/ktapesim_mchou3.py:63-70 | Registering `q,*,q2,*,R` stores three rules, one each for `a`, `b` and the blank. |

## Left out

- Loading a machine from a CSV file and the command line (`main`, code/ktapesim_mchou3.py:124-143): file I/O and parsing are outside the engine.
- All trace printing (code/ktapesim_mchou3.py:78-80, 85-92, 107-110, 116-120): output only.
- `sys.exit(1)` on a missing rule: the model ends the run with the verdict `NoTransition(state, reading, steps)` instead.
- Unbounded execution: the source's loop can run forever. `Simulation.Run` takes a fuel bound and returns `OutOfFuel` when the bound is used up. `RunSound`, `RunComplete` and `RunFuelMonotone` relate the bounded run to the unbounded step semantics.
- Python's `set` iteration order: it becomes the parameter `order`, a sequence of symbols. `Registration.Enumerates` says when `order` lists a given alphabet, and `Registration.AlphabetExpansion` states what rewriting yields when it lists the alphabet the constructor builds.
- The table lives in `Engine.Machine` as the empty map the constructor stores. Registration and the run take the table as an argument rather than updating the machine's field in place.
- Registration.WildOnlyInValue: leaves unspecified which alphabet symbol's rewrite survives. The source picks the last one in `set` iteration order, which Python does not fix.
- Crash paths of the source, which become preconditions:
  - k < 1;
  - records shorter than 3k+2. The source slices them without checking. A record of k+1 fields or fewer fails when it is registered, and any other short record fails when its rule is taken;
  - movement codes other than `L`, `R` and `S`, which raise a KeyError when the rule is taken. The model demands valid codes when the record is registered;
  - records with `*` in a movement field. The model refuses to register them. The source rewrites them like any other record. A rewrite whose symbol is an input character `L`, `R` or `S` is a rule the source can take without error. A run that takes one of the rewrites with another symbol raises a KeyError. Rules.MakeTransition and the lemmas about registration do not cover such records;
  - an empty input, since the first read of tape 0 would be out of range. `Engine.New` reports this: its configuration is well formed iff the input is non-empty.
- Records longer than 3k+2 are refused by `Rules.WellFormedRaw`. The source accepts them without error and puts every field after the written symbols into the movement tuple. A step reads only the first k of those codes, so the extra fields are ignored. For example, with k = 1 the record `q0,a,q0,a,R,`, which has a trailing empty field, behaves as `q0,a,q0,a,R`. Rules.MakeTransition and the lemmas about registration do not cover such records.
- The machine name and the state set `Q` are kept in `Engine.Machine`, but no operation uses them, as in the source.

Two points where the model follows the code rather than what a reader of the format might expect:

- The wildcard expands over every alphabet symbol except `*`, so the blank `_` is included (code/ktapesim_mchou3.py:50, 57-59).
- Registration does not check a record's arity, and no error is reported for a misaligned record. The model makes the arity a precondition instead.
