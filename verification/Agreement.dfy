/** The two interpreters compared: on the same input they print the same. */
module Agreement {
  import opened Values
  import opened Syntax
  import opened Tokens
  import S = Sessions
  import Collected = Interpreter
  import Counted = CountedInterpreter

  predicate StopsByItself(r: S.Report) {
    r == S.Completed || r.Stopped?
  }

  /** Two sessions on the same input that stop by themselves stop in the same way and print the same; one that is cut
      short prints the beginning of what the other one prints. */
  lemma SessionsAgree(m: nat, n: nat, k: nat, ts: seq<Token>, before: seq<string>, before': seq<string>, r: S.Report,
                      r': S.Report, o: seq<string>, o': seq<string>)
    requires S.Session(m, n, ts, before, r, before + o) && S.Session(m, k, ts, before', r', before' + o')
    requires StopsByItself(r)
    ensures o' <= o && (StopsByItself(r') ==> r' == r && o' == o)
  {
    S.SessionIsFaithful(m, n, ts, before, r, before + o);
    S.SessionIsFaithful(m, k, ts, before', r', before' + o');
    var all := S.Programs(m, ts);
    assert (before + o)[|before|..] == o && (before' + o')[|before'|..] == o';
    assert (before + all.out)[|before|..] == all.out && (before' + all.out)[|before'|..] == all.out;
    assert before' + o' <= before' + all.out;
    assert o' <= all.out by {
      forall i | 0 <= i < |o'| ensures o'[i] == all.out[i] {
        assert o'[i] == (before' + o')[|before'| + i] == (before' + all.out)[|before'| + i];
      }
    }
  }

  /** If all programs come to an end, then with sufficiently many turns and objects a session stops by itself, and has
      printed what the programs mean. */
  lemma AllIsPrinted(m: nat, tokens: seq<Token>) returns (turns: nat)
    requires !S.Programs(m, tokens).Endless?
    ensures forall n: nat, r, printed | n >= turns && S.Session(m, n, tokens, [], r, printed) && r != S.HeapFull ::
              StopsByItself(r) && printed == S.Programs(m, tokens).out
  {
    hide S.Session, S.Programs;
    turns := S.SessionEnds(m, tokens, []);
    forall n: nat, r, printed | n >= turns && S.Session(m, n, tokens, [], r, printed) && r != S.HeapFull
      ensures StopsByItself(r) && printed == S.Programs(m, tokens).out
    {
      S.SessionIsFaithful(m, n, tokens, [], r, printed);
      assert [] + S.Programs(m, tokens).out == S.Programs(m, tokens).out;
    }
  }

  /** How many objects are enough for m programs of at most n turns each, in an input with the given number of tokens:
      14 for nil and the global variables, one for each token, 3 to start a program and 8 for each turn. */
  function Enough(tokens: nat, m: nat, n: nat): nat {
    14 + tokens + m * (3 + 8 * n)
  }

  /** What the interpreter of gcl.c may do with an input: what the programs mean, or to find its heap too small already
      for the global variables. */
  ghost predicate MayDo(m: nat, n: nat, tokens: seq<Token>, r: S.Report, printed: seq<string>) {
    S.Session(m, n, tokens, [], r, printed) || (r == S.HeapFull && printed == [])
  }

  /** A session of the interpreter of gcl.c from its start. Its heap is full only when all objects that the limit
      allows are reachable, and never if the limit is large enough. */
  method RunCollected(tokens: seq<Token>, m: nat, limit: nat, n: nat)
    returns (r: S.Report, printed: seq<string>, ghost interp: Collected.Interp)
    requires limit >= 1
    ensures MayDo(m, n, tokens, r, printed) && interp.heap.limit == limit && printed == interp.output
    ensures r == S.HeapFull ==> interp.heap.Full() && limit <= Enough(|tokens|, m, n)
  {
    hide S.Session, Collected.Interp.Valid, Collected.Interp.Global;
    var machine := new Collected.Interp(1, limit);
    interp := machine;
    machine.StateOutput();
    var tokenizer := new Tokenizer(tokens);
    var envs := machine.Initialize();
    if envs.Failure? {
      return S.HeapFull, machine.output, interp;
    }
    machine.StateOutput();
    r := machine.RunPrograms(tokenizer, envs.value, m, n);
    printed := machine.output;
  }

  /** A session of the interpreter of rcl.c from its start. */
  method RunCounted(tokens: seq<Token>, m: nat, n: nat) returns (r: S.Report, printed: seq<string>)
    ensures S.Session(m, n, tokens, [], r, printed) && r != S.HeapFull
  {
    hide S.Session, Counted.Interp.Valid, Counted.Interp.Globals, Counted.Interp.Owns;
    var interp := new Counted.Interp(1);
    interp.StateOutput();
    var tokenizer := new Tokenizer(tokens);
    var forms, env := interp.Initialize();
    r := interp.RunPrograms(tokenizer, forms, env, m, n);
    printed := interp.output;
  }

  /** A session of each interpreter on the same input, the first with at most 'limit' objects and n turns for each
      program, the second with k turns. */
  method RunBoth(tokens: seq<Token>, m: nat, limit: nat, n: nat, k: nat)
    returns (r: S.Report, printed: seq<string>, r': S.Report, printed': seq<string>)
    requires limit >= 1
    ensures MayDo(m, n, tokens, r, printed) && (limit > Enough(|tokens|, m, n) ==> r != S.HeapFull)
    ensures S.Session(m, k, tokens, [], r', printed') && r' != S.HeapFull
    ensures StopsByItself(r) && StopsByItself(r') ==> r == r' && printed == printed'
    ensures StopsByItself(r') ==> printed <= printed'
    ensures StopsByItself(r) ==> printed' <= printed
  {
    hide S.Session;
    r', printed' := RunCounted(tokens, m, k);
    ghost var interp;
    r, printed, interp := RunCollected(tokens, m, limit, n);
    assert [] + printed == printed && [] + printed' == printed';
    if StopsByItself(r) {
      SessionsAgree(m, n, k, tokens, [], [], r, r', printed, printed');
    }
    if StopsByItself(r') && S.Session(m, n, tokens, [], r, printed) {
      SessionsAgree(m, k, n, tokens, [], [], r', r, printed', printed);
    }
  }
}
