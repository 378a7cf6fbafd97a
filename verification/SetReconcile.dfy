/**
 Moving a listed collection of keys towards a wanted set under a shared budget of writes: what a pass does, and what is
 left to do.
 */
module SetReconcile {
  import opened Text

  // ---- what a pass does to the list of keys --------------------------------------------------

  /** Deletes unwanted entries, front to back, at most `n` of them. */
  function KeptKeys(keys: seq<string>, want: set<string>, n: nat): seq<string> {
    if |keys| == 0 || n == 0 then keys
    else if keys[0] in want then [keys[0]] + KeptKeys(keys[1..], want, n)
    else KeptKeys(keys[1..], want, n - 1)
  }

  /** The budget left after the deletions. */
  function Spare(keys: seq<string>, want: set<string>, n: nat): nat {
    if |keys| == 0 || n == 0 then n else if keys[0] in want then Spare(keys[1..], want, n)
        else Spare(keys[1..], want, n - 1)
  }

  /** The keys created, in order, at most `n`, none from a blocked one on. */
  function Chosen(wanted: seq<string>, have: set<string>, blocked: set<string>, n: nat): seq<string> {
    if |wanted| == 0 || n == 0 then []
    else if wanted[0] in have then Chosen(wanted[1..], have, blocked, n)
    else if wanted[0] in blocked then []
    else [wanted[0]] + Chosen(wanted[1..], have, blocked, n - 1)
  }

  /** The budget left after the creations; nothing is left after a refusal. */
  function Rest(wanted: seq<string>, have: set<string>, blocked: set<string>, n: nat): nat {
    if |wanted| == 0 || n == 0 then n
    else if wanted[0] in have then Rest(wanted[1..], have, blocked, n)
    else if wanted[0] in blocked then 0
    else Rest(wanted[1..], have, blocked, n - 1)
  }

  /** The keys after a pass, and how many writes may still be made. */
  datatype Pass = Pass(keys: seq<string>, left: nat)

  function Reconciled(keys: seq<string>, wanted: seq<string>, blocked: set<string>, n: nat): Pass {
    var spare := Spare(keys, SetOf(wanted), n);
    Pass(KeptKeys(keys, SetOf(wanted), n) + Chosen(wanted, SetOf(keys), blocked, spare),
        Rest(wanted, SetOf(keys), blocked, spare))
  }

  lemma {:induction false} ChosenWanted(wanted: seq<string>, have: set<string>, blocked: set<string>, n: nat)
    ensures forall k | k in Chosen(wanted, have, blocked, n) :: k in wanted && k !in have && k !in blocked
  {
    if |wanted| > 0 && n > 0 {
      ChosenWanted(wanted[1..], have, blocked, n);
      ChosenWanted(wanted[1..], have, blocked, n - 1);
    }
  }

  // ---- what is left to do --------------------------------------------------------------------

  function Min(a: int, b: int): int {
    if a <= b then a else b
  }

  /** Entries whose key is not wanted, repetitions included. */
  function Unwanted(keys: seq<string>, want: set<string>): nat {
    if |keys| == 0 then 0 else Unwanted(keys[1..], want) + if keys[0] in want then 0 else 1
  }

  /** Entries beyond the first of their key. */
  function Repeats(keys: seq<string>): int {
    |keys| - |SetOf(keys)|
  }

  /** One write for each unwanted entry and one for each missing key. */
  function Work(keys: seq<string>, want: set<string>): nat {
    Unwanted(keys, want) + |want - SetOf(keys)|
  }

  /** The missing keys, in order. */
  function Absent(wanted: seq<string>, have: set<string>): seq<string> {
    if |wanted| == 0 then [] else (if wanted[0] in have then [] else [wanted[0]]) + Absent(wanted[1..], have)
  }

  /** The missing keys from the first blocked one on: no pass gets to them. */
  function Starved(wanted: seq<string>, have: set<string>, blocked: set<string>): nat {
    if |wanted| == 0 then 0
    else if wanted[0] in have then Starved(wanted[1..], have, blocked)
    else if wanted[0] in blocked then |Absent(wanted, have)|
    else Starved(wanted[1..], have, blocked)
  }

  lemma HeadSet(keys: seq<string>)
    requires |keys| > 0
    ensures SetOf(keys) == {keys[0]} + SetOf(keys[1..])
    ensures Distinct(keys) ==> keys[0] !in SetOf(keys[1..]) && Distinct(keys[1..])
  {
    assert forall k :: k in keys <==> k == keys[0] || k in keys[1..];
  }

  lemma {:induction false} AbsentCounts(wanted: seq<string>, have: set<string>)
    requires Distinct(wanted)
    ensures |Absent(wanted, have)| == |SetOf(wanted) - have|
  {
    if |wanted| == 0 {
      assert SetOf(wanted) - have == {};
    } else {
      var x, rest := wanted[0], SetOf(wanted[1..]);
      HeadSet(wanted);
      AbsentCounts(wanted[1..], have);
      if x in have {
        assert SetOf(wanted) - have == rest - have;
      } else {
        assert SetOf(wanted) - have == {x} + (rest - have);
      }
    }
  }

  /** Only membership of the wanted keys matters. */
  lemma {:induction false} SameMembers(wanted: seq<string>, a: set<string>, b: set<string>, blocked: set<string>)
    requires forall k | k in wanted :: k in a <==> k in b
    ensures Absent(wanted, a) == Absent(wanted, b) && Starved(wanted, a, blocked) == Starved(wanted, b, blocked)
  {
    if |wanted| > 0 {
      assert wanted[0] in wanted;
      SameMembers(wanted[1..], a, b, blocked);
    }
  }

  lemma {:induction false} StarvedIff(wanted: seq<string>, have: set<string>, blocked: set<string>)
    ensures Starved(wanted, have, blocked) <= |Absent(wanted, have)|
    ensures Starved(wanted, have, blocked) == 0 <==> (SetOf(wanted) - have) !! blocked
  {
    if |wanted| > 0 {
      var x, rest := wanted[0], SetOf(wanted[1..]);
      StarvedIff(wanted[1..], have, blocked);
      HeadSet(wanted);
      if x in have {
        assert SetOf(wanted) - have == rest - have;
      } else if x in blocked {
        assert x in (SetOf(wanted) - have) * blocked;
      } else {
        assert SetOf(wanted) - have == {x} + (rest - have);
      }
    }
  }

  // ---- deleting ---------------------------------------------------------------------------------

  /** Deleting takes out as many unwanted entries as the budget allows and no wanted one, on any list. */
  lemma {:induction false} KeptEffect(keys: seq<string>, want: set<string>, n: nat)
    ensures var kept, spent := KeptKeys(keys, want, n), Min(n, Unwanted(keys, want));
            && Unwanted(kept, want) == Unwanted(keys, want) - spent && Spare(keys, want, n) == n - spent
            && |kept| == |keys| - spent
    ensures var kept := KeptKeys(keys, want, n);
            && SetOf(kept) <= SetOf(keys) && (forall k | k in want :: k in kept <==> k in keys)
            && (Distinct(keys) ==> Distinct(kept))
  {
    if |keys| > 0 && n > 0 {
      var x := keys[0];
      HeadSet(keys);
      if x in want {
        var kept := KeptKeys(keys[1..], want, n);
        KeptEffect(keys[1..], want, n);
        KeptHead(x, kept, want);
        if Distinct(keys) { assert x !in SetOf(kept); }
      } else {
        KeptEffect(keys[1..], want, n - 1);
        assert forall k | k in want :: k in keys <==> k in keys[1..];
      }
    }
  }

  lemma KeptHead(x: string, kept: seq<string>, want: set<string>)
    requires x in want
    ensures Unwanted([x] + kept, want) == Unwanted(kept, want) && SetOf([x] + kept) == {x} + SetOf(kept)
    ensures Distinct(kept) && x !in SetOf(kept) ==> Distinct([x] + kept)
  {
    assert ([x] + kept)[1..] == kept;
    HeadSet([x] + kept);
  }

  // ---- creating -----------------------------------------------------------------------------------

  /** `c` is what a budget of `n` creates of the reachable missing keys. */
  ghost predicate Reached(c: seq<string>, wanted: seq<string>, have: set<string>, blocked: set<string>, n: nat) {
    && |c| == Min(n, |Absent(wanted, have)| - Starved(wanted, have, blocked)) && Distinct(c)
    && |Absent(wanted, have + SetOf(c))| == |Absent(wanted, have)| - |c|
    && Starved(wanted, have + SetOf(c), blocked) == Starved(wanted, have, blocked)
  }

  lemma ReachedNothing(wanted: seq<string>, have: set<string>, blocked: set<string>, n: nat)
    requires n == 0 || |Absent(wanted, have)| == Starved(wanted, have, blocked)
    ensures Reached([], wanted, have, blocked, n)
  {
    StarvedIff(wanted, have, blocked);
    assert have + SetOf([]) == have;
  }

  lemma ReachedSkip(c: seq<string>, wanted: seq<string>, have: set<string>, blocked: set<string>, n: nat)
    requires |wanted| > 0 && wanted[0] in have && Reached(c, wanted[1..], have, blocked, n)
    ensures Reached(c, wanted, have, blocked, n)
  {
  }

  lemma ReachedOne(c: seq<string>, wanted: seq<string>, have: set<string>, blocked: set<string>, n: nat)
    requires |wanted| > 0 && Distinct(wanted) && wanted[0] !in have && wanted[0] !in blocked && n > 0
    requires Reached(c, wanted[1..], have, blocked, n - 1) && forall k | k in c :: k in wanted[1..]
    ensures Reached([wanted[0]] + c, wanted, have, blocked, n)
  {
    StarvedIff(wanted[1..], have, blocked);
    ChosenHead(wanted, have, blocked, c);
  }

  /** Creating reaches as many missing keys as the budget allows, none from the first blocked one on. */
  lemma {:induction false} ChosenEffect(wanted: seq<string>, have: set<string>, blocked: set<string>, n: nat)
    requires Distinct(wanted)
    ensures Reached(Chosen(wanted, have, blocked, n), wanted, have, blocked, n)
    ensures Starved(wanted, have, blocked) == 0 ==>
              Rest(wanted, have, blocked, n) == n - |Chosen(wanted, have, blocked, n)|
  {
    hide Reached;
    if |wanted| == 0 || n == 0 {
      ReachedNothing(wanted, have, blocked, n);
    } else {
      HeadSet(wanted);
      StarvedIff(wanted, have, blocked);
      if wanted[0] in have {
        ChosenEffect(wanted[1..], have, blocked, n);
        ReachedSkip(Chosen(wanted[1..], have, blocked, n), wanted, have, blocked, n);
      } else if wanted[0] in blocked {
        ReachedNothing(wanted, have, blocked, n);
      } else {
        ChosenEffect(wanted[1..], have, blocked, n - 1);
        ChosenWanted(wanted[1..], have, blocked, n - 1);
        ReachedOne(Chosen(wanted[1..], have, blocked, n - 1), wanted, have, blocked, n);
      }
    }
  }

  lemma ChosenHead(wanted: seq<string>, have: set<string>, blocked: set<string>, c: seq<string>)
    requires |wanted| > 0 && Distinct(wanted) && wanted[0] !in have && wanted[0] !in blocked
    ensures Absent(wanted, have + SetOf([wanted[0]] + c)) == Absent(wanted[1..], have + SetOf(c))
    ensures Starved(wanted, have + SetOf([wanted[0]] + c), blocked) == Starved(wanted[1..], have + SetOf(c), blocked)
    ensures Distinct(c) && (forall k | k in c :: k in wanted[1..]) ==> Distinct([wanted[0]] + c)
  {
    var x := wanted[0];
    HeadSet(wanted);
    HeadSet([x] + c);
    assert ([x] + c)[1..] == c;
    SameMembers(wanted[1..], have + SetOf([x] + c), have + SetOf(c), blocked);
  }

  // ---- one pass -------------------------------------------------------------------------------------

  /**
   On any list, one pass shrinks the work by the budget or by all it can reach, keeps every wanted key and
   adds only wanted ones; what a blocked key starves stays starved, and distinct keys stay distinct.
   */
  lemma PassShrinks(keys: seq<string>, wanted: seq<string>, blocked: set<string>, n: nat)
    requires Distinct(wanted)
    ensures var r, want := Reconciled(keys, wanted, blocked, n), SetOf(wanted);
            var starved := Starved(wanted, SetOf(keys), blocked);
            var spent := Min(n, Work(keys, want) - starved);
            && starved <= |want - SetOf(keys)| && Work(r.keys, want) == Work(keys, want) - spent
            && Starved(wanted, SetOf(r.keys), blocked) == starved
            && SetOf(keys) * want <= SetOf(r.keys) <= SetOf(keys) + want
            && (Distinct(keys) ==> Distinct(r.keys)) && (starved == 0 ==> r.left == n - spent)
  {
    hide KeptKeys, Spare, Chosen, Rest, Absent, Starved, Unwanted;
    var want, have := SetOf(wanted), SetOf(keys);
    var kept, spare := KeptKeys(keys, want, n), Spare(keys, want, n);
    var c := Chosen(wanted, have, blocked, spare);
    KeptEffect(keys, want, n);
    ChosenEffect(wanted, have, blocked, spare);
    ChosenWanted(wanted, have, blocked, spare);
    StarvedIff(wanted, have, blocked);
    AbsentCounts(wanted, have);
    AfterBoth(wanted, have, kept, c, blocked);
    UnwantedConcat(kept, c, want);
  }

  /** The list after both halves, as far as the wanted keys go. */
  lemma AfterBoth(wanted: seq<string>, have: set<string>, kept: seq<string>, c: seq<string>, blocked: set<string>)
    requires Distinct(wanted) && SetOf(kept) <= have && (forall k | k in SetOf(wanted) :: k in kept <==> k in have)
    requires forall k | k in c :: k in wanted && k !in have
    ensures var now := SetOf(kept + c);
            && |SetOf(wanted) - now| == |Absent(wanted, have + SetOf(c))|
            && Starved(wanted, now, blocked) == Starved(wanted, have + SetOf(c), blocked)
            && have * SetOf(wanted) <= now <= have + SetOf(wanted)
    ensures Distinct(kept) && Distinct(c) ==> Distinct(kept + c)
  {
    hide Absent, Starved;
    var now := SetOf(kept + c);
    forall k ensures k in now <==> k in SetOf(kept) || k in SetOf(c) {
      assert k in kept + c <==> k in kept || k in c;
    }
    SameMembers(wanted, now, have + SetOf(c), blocked);
    AbsentCounts(wanted, now);
    if Distinct(kept) && Distinct(c) { DistinctJoin(kept, c); }
  }

  lemma DistinctJoin(a: seq<string>, b: seq<string>)
    requires Distinct(a) && Distinct(b) && forall k | k in b :: k !in SetOf(a)
    ensures Distinct(a + b)
  {
    forall i, j | 0 <= i < |a| && 0 <= j < |b| ensures a[i] != b[j] {
      assert b[j] in b && a[i] in SetOf(a);
    }
  }

  lemma {:induction false} UnwantedConcat(a: seq<string>, b: seq<string>, want: set<string>)
    requires forall k | k in b :: k in want
    ensures Unwanted(a + b, want) == Unwanted(a, want)
  {
    if |a| > 0 {
      assert (a + b)[1..] == a[1..] + b;
      UnwantedConcat(a[1..], b, want);
    } else {
      assert a + b == b;
      AllWanted(b, want);
    }
  }

  lemma {:induction false} AllWanted(keys: seq<string>, want: set<string>)
    ensures Unwanted(keys, want) == 0 <==> forall k | k in keys :: k in want
  {
    if |keys| > 0 {
      AllWanted(keys[1..], want);
      assert forall k :: k in keys <==> k == keys[0] || k in keys[1..];
    }
  }

  /** A pass with budget leaves the list as it is exactly when nothing it can reach is left to do. */
  lemma IdlePassIff(keys: seq<string>, wanted: seq<string>, blocked: set<string>, n: nat)
    requires Distinct(wanted) && n > 0
    ensures Reconciled(keys, wanted, blocked, n).keys == keys <==>
        Work(keys, SetOf(wanted)) == Starved(wanted, SetOf(keys), blocked)
    ensures Work(keys, SetOf(wanted)) == Starved(wanted, SetOf(keys), blocked) ==>
              KeptKeys(keys, SetOf(wanted), n) == keys
                  && Chosen(wanted, SetOf(keys), blocked, Spare(keys, SetOf(wanted), n)) == []
  {
    hide Starved, Absent, Rest, Chosen, Spare, KeptKeys, Unwanted, Work, Reconciled;
    PassShrinks(keys, wanted, blocked, n);
    if Work(keys, SetOf(wanted)) == Starved(wanted, SetOf(keys), blocked) {
      NothingReachable(keys, wanted, blocked, n);
    }
  }

  lemma NothingReachable(keys: seq<string>, wanted: seq<string>, blocked: set<string>, n: nat)
    requires Distinct(wanted) && Work(keys, SetOf(wanted)) == Starved(wanted, SetOf(keys), blocked)
    ensures KeptKeys(keys, SetOf(wanted), n) == keys && Chosen(wanted, SetOf(keys), blocked,
        Spare(keys, SetOf(wanted), n)) == []
    ensures Reconciled(keys, wanted, blocked, n).keys == keys
  {
    hide Starved, Absent, Rest, Chosen, Spare;
    var have, spare := SetOf(keys), Spare(keys, SetOf(wanted), n);
    StarvedIff(wanted, have, blocked);
    AbsentCounts(wanted, have);
    KeptAll(keys, SetOf(wanted), n);
    ChosenEffect(wanted, have, blocked, spare);
    assert keys + [] == keys;
  }

  lemma {:induction false} KeptAll(keys: seq<string>, want: set<string>, n: nat)
    requires Unwanted(keys, want) == 0
    ensures KeptKeys(keys, want, n) == keys
  {
    if |keys| > 0 && n > 0 { KeptAll(keys[1..], want, n); }
  }

  // ---- the drift check ------------------------------------------------------------------------------

  /** As many listed entries as wanted keys, and every listed key wanted. */
  predicate Converged(keys: seq<string>, want: set<string>) {
    |want| == |keys| && forall i | 0 <= i < |keys| :: keys[i] in want
  }

  /** The check holds exactly when nothing is unwanted and as many keys are missing as entries are repeated. */
  lemma ConvergedMeans(keys: seq<string>, want: set<string>)
    ensures Repeats(keys) >= 0 && (Repeats(keys) == 0 <==> Distinct(keys))
    ensures Converged(keys, want) <==> Unwanted(keys, want) == 0 && Repeats(keys) == |want - SetOf(keys)|
  {
    var have := SetOf(keys);
    DistinctSize(keys);
    AllWanted(keys, want);
    assert (forall k | k in keys :: k in want) <==> (forall i | 0 <= i < |keys| :: keys[i] in want);
    if have <= want {
      assert want == have + (want - have);
      assert |want| == |have| + |want - have|;
    }
  }

  /** The check says "the key sets agree" for every declaration exactly when the listing repeats no key. */
  lemma ConvergedIff(keys: seq<string>)
    ensures (forall want: set<string> :: Converged(keys, want) <==> SetOf(keys) == want) <==> Distinct(keys)
  {
    if Distinct(keys) {
      forall want: set<string> ensures Converged(keys, want) <==> SetOf(keys) == want {
        ConvergedMeans(keys, want);
        NoWorkIff(keys, want);
      }
    } else {
      ConvergedMeans(keys, SetOf(keys));
      assert |SetOf(keys) - SetOf(keys)| == 0;
    }
  }

  lemma NoWorkIff(keys: seq<string>, want: set<string>)
    ensures SetOf(keys) == want <==> Work(keys, want) == 0
  {
    AllWanted(keys, want);
    if Work(keys, want) == 0 { assert want - SetOf(keys) == {}; }
  }

  /**
   A listing that repeats a key is called drifted when it is not, and for another declaration called converged with
   work left.
   */
  lemma RepeatedKeysFoolTheDriftCheck(keys: seq<string>)
    requires !Distinct(keys)
    ensures !Converged(keys, SetOf(keys)) && Work(keys, SetOf(keys)) == 0
    ensures exists want: set<string> :: Converged(keys, want) && Work(keys, want) > 0
  {
    NoWorkIff(keys, SetOf(keys));
    ConvergedIff(keys);
    ConvergedMeans(keys, SetOf(keys));
    assert |SetOf(keys) - SetOf(keys)| == 0;
    var more := FreshKeys(SetOf(keys), Repeats(keys));
    var want := SetOf(keys) + more;
    assert want - SetOf(keys) == more;
    AllWanted(keys, want);
    ConvergedMeans(keys, want);
  }
}
