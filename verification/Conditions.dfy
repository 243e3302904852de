/**
 The condition list of a lease (pkg/utils/conditions/gettersetter.go): a list kept sorted by
 type that behaves as a map from type to the last state written.
 */
module Conditions {
  import opened Types
  import opened Sorting

  // ---- Order of types ----------------------------------------------------------------------

  predicate Less(a: string, b: string) {
    if b == "" then false
    else if a == "" then true
    else a[0] < b[0] || (a[0] == b[0] && Less(a[1..], b[1..]))
  }

  lemma {:induction false} LessTrichotomy(a: string, b: string)
    ensures Less(a, b) ==> a != b && !Less(b, a)
    ensures a == b || Less(a, b) || Less(b, a)
  {
    if a != "" && b != "" && a[0] == b[0] {
      LessTrichotomy(a[1..], b[1..]);
      assert a == [a[0]] + a[1..] && b == [b[0]] + b[1..];
    }
  }

  lemma {:induction false} LessTransitive(a: string, b: string, c: string)
    requires Less(a, b) && Less(b, c)
    ensures Less(a, c)
  {
    if a != "" && a[0] == b[0] == c[0] {
      LessTransitive(a[1..], b[1..], c[1..]);
    }
  }

  /** The order of strings: the shorter one of two that begin alike, and otherwise the one with the
      smaller character where they first differ. */
  lemma {:induction false} LessIsLexicographic(a: string, b: string)
    ensures Less(a, b) <==> exists k :: FirstDifference(a, b, k)
  {
    if a != "" && b != "" && a[0] == b[0] {
      LessIsLexicographic(a[1..], b[1..]);
      if k :| FirstDifference(a, b, k) {
        assert k > 0;
        assert a[1..][..k - 1] == a[..k][1..] && b[1..][..k - 1] == b[..k][1..];
        assert FirstDifference(a[1..], b[1..], k - 1);
      }
      if k :| FirstDifference(a[1..], b[1..], k) {
        assert a == [a[0]] + a[1..] && b == [b[0]] + b[1..];
        assert a[..k + 1] == [a[0]] + a[1..][..k] && b[..k + 1] == [b[0]] + b[1..][..k];
        assert FirstDifference(a, b, k + 1);
      }
    } else if Less(a, b) {
      assert FirstDifference(a, b, 0);
    }
  }

  ghost predicate FirstDifference(a: string, b: string, k: int) {
    0 <= k <= |a| && k < |b| && a[..k] == b[..k] && (k < |a| ==> a[k] < b[k])
  }

  predicate TypeBefore(a: Condition, b: Condition) {
    Less(a.ctype, b.ctype)
  }

  lemma TypeOrder()
    ensures IsOrder(TypeBefore)
  {
    forall a: Condition, b: Condition ensures TypeBefore(a, b) ==> !TypeBefore(b, a) {
      LessTrichotomy(a.ctype, b.ctype);
    }
    forall a: Condition, b: Condition, c: Condition | !TypeBefore(a, b) && !TypeBefore(b, c)
      ensures !TypeBefore(a, c)
    {
      LessTrichotomy(a.ctype, b.ctype);
      LessTrichotomy(b.ctype, c.ctype);
      LessTrichotomy(a.ctype, c.ctype);
      if TypeBefore(a, c) && a.ctype != b.ctype && b.ctype != c.ctype {
        LessTransitive(c.ctype, b.ctype, a.ctype);
      }
    }
  }

  // ---- Conditions --------------------------------------------------------------------------

  function TrueCondition(t: string): Condition {
    Condition(t, True, "", "", "", 0)
  }

  function FalseCondition(t: string): Condition {
    Condition(t, False, "", "", "", 0)
  }

  function FalseConditionWithReason(t: string, reason: string, severity: string, message: string): Condition {
    Condition(t, False, severity, reason, message, 0)
  }

  /** Equal in everything but the transition time. */
  predicate HasSameState(a: Condition, b: Condition) {
    && a.ctype == b.ctype && a.status == b.status && a.reason == b.reason
    && a.severity == b.severity && a.message == b.message
  }

  /** What an existing entry becomes: it is left alone unless something but its time changes. */
  function Merge(existing: Condition, c: Condition, now: nat): Condition {
    if existing.(time := c.time) == c then existing else c.(time := now)
  }

  function Stamped(c: Condition, now: nat): Condition {
    if c.time == 0 then c.(time := now) else c
  }

  ghost predicate StrictlySorted(list: seq<Condition>) {
    forall i, j :: 0 <= i < j < |list| ==> Less(list[i].ctype, list[j].ctype)
  }

  // ---- Specification: a write to a sorted list ---------------------------------------------

  /** Replaces the entry of the same type, or inserts a new one at its place. */
  function Apply(list: seq<Condition>, c: Condition, now: nat): seq<Condition> {
    if list == [] then [Stamped(c, now)]
    else if list[0].ctype == c.ctype then [Merge(list[0], c, now)] + list[1..]
    else if Less(c.ctype, list[0].ctype) then [Stamped(c, now)] + list
    else [list[0]] + Apply(list[1..], c, now)
  }

  function Lookup(list: seq<Condition>, t: string): Option<Condition> {
    if list == [] then None
    else if list[0].ctype == t then Some(list[0])
    else Lookup(list[1..], t)
  }

  lemma {:induction false} ApplyTypes(list: seq<Condition>, c: Condition, now: nat)
    ensures Apply(list, c, now) != []
    ensures forall x :: x in Apply(list, c, now) ==> x.ctype == c.ctype || x in list
  {
    if list != [] {
      ApplyTypes(list[1..], c, now);
    }
  }

  lemma {:induction false} ApplySorted(list: seq<Condition>, c: Condition, now: nat)
    requires StrictlySorted(list)
    ensures StrictlySorted(Apply(list, c, now))
  {
    if list == [] {
    } else if list[0].ctype == c.ctype {
    } else if Less(c.ctype, list[0].ctype) {
      forall x | x in list ensures Less(c.ctype, x.ctype) {
        if x.ctype != list[0].ctype {
          LessTransitive(c.ctype, list[0].ctype, x.ctype);
        }
      }
    } else {
      LessTrichotomy(c.ctype, list[0].ctype);
      ApplySorted(list[1..], c, now);
      ApplyTypes(list[1..], c, now);
    }
  }

  lemma {:induction false} LookupAbsent(list: seq<Condition>, t: string)
    ensures Lookup(list, t).None? <==> forall x :: x in list ==> x.ctype != t
    ensures Lookup(list, t).Some? ==> Lookup(list, t).value in list && Lookup(list, t).value.ctype == t
  {
    if list != [] {
      LookupAbsent(list[1..], t);
    }
  }

  /** A write sets its own type and leaves every other type alone. */
  lemma {:induction false} LookupAfterApply(list: seq<Condition>, c: Condition, now: nat, t: string)
    requires StrictlySorted(list)
    ensures t != c.ctype ==> Lookup(Apply(list, c, now), t) == Lookup(list, t)
    ensures Lookup(Apply(list, c, now), c.ctype)
         == Some(match Lookup(list, c.ctype) case None => Stamped(c, now) case Some(e) => Merge(e, c, now))
  {
    if list == [] {
    } else if list[0].ctype == c.ctype {
    } else if Less(c.ctype, list[0].ctype) {
      forall x | x in list ensures x.ctype != c.ctype {
        LessTrichotomy(c.ctype, x.ctype);
        if x.ctype != list[0].ctype {
          LessTransitive(c.ctype, list[0].ctype, x.ctype);
        }
      }
      LookupAbsent(list, c.ctype);
    } else {
      LookupAfterApply(list[1..], c, now, t);
    }
  }

  /** In a sorted list an entry is the one its type leads to. */
  lemma {:induction false} LookupMember(list: seq<Condition>, e: Condition)
    requires StrictlySorted(list)
    ensures e in list <==> Lookup(list, e.ctype) == Some(e)
  {
    LookupAbsent(list, e.ctype);
    if e in list && list[0] != e {
      LookupMember(list[1..], e);
      assert list == [list[0]] + list[1..];
      LessTrichotomy(list[0].ctype, e.ctype);
    }
  }

  /** A write, field by field: there is one entry of the type, and it says what was written; its time is
      that of the entry before exactly when that one said the same; all other entries stay. */
  lemma WriteByField(list: seq<Condition>, c: Condition, now: nat)
    requires StrictlySorted(list)
    ensures exists e :: e in Apply(list, c, now) && e.ctype == c.ctype
    ensures forall e :: e in Apply(list, c, now) && e.ctype == c.ctype ==>
              e.status == c.status && e.reason == c.reason && e.severity == c.severity && e.message == c.message
    ensures forall b, e :: b in list && e in Apply(list, c, now) && b.ctype == c.ctype && e.ctype == c.ctype ==>
              e.time == if (b.status == c.status && b.reason == c.reason && b.severity == c.severity
                            && b.message == c.message) then b.time else now
    ensures (forall b :: b in list ==> b.ctype != c.ctype) ==>
              forall e :: e in Apply(list, c, now) && e.ctype == c.ctype ==>
                e.time == if c.time == 0 then now else c.time
    ensures forall e: Condition :: e.ctype != c.ctype ==> (e in Apply(list, c, now) <==> e in list)
  {
    var out := Apply(list, c, now);
    ApplySorted(list, c, now);
    LookupAfterApply(list, c, now, c.ctype);
    LookupAbsent(list, c.ctype);
    LookupAbsent(out, c.ctype);
    forall e | e in out && e.ctype == c.ctype ensures Lookup(out, c.ctype) == Some(e) {
      LookupMember(out, e);
    }
    forall b | b in list && b.ctype == c.ctype ensures Lookup(list, c.ctype) == Some(b) {
      LookupMember(list, b);
    }
    forall e: Condition | e.ctype != c.ctype ensures e in out <==> e in list {
      LookupAfterApply(list, c, now, e.ctype);
      LookupMember(list, e);
      LookupMember(out, e);
    }
  }

  // ---- The code: overwrite or append, then sort --------------------------------------------

  lemma {:induction false} ApplyIsUpdate(list: seq<Condition>, i: nat, c: Condition, now: nat)
    requires StrictlySorted(list) && i < |list| && list[i].ctype == c.ctype
    ensures Apply(list, c, now) == list[i := Merge(list[i], c, now)]
  {
    if i > 0 {
      LessTrichotomy(list[0].ctype, c.ctype);
      ApplyIsUpdate(list[1..], i - 1, c, now);
      assert list[i := Merge(list[i], c, now)] == [list[0]] + list[1..][i - 1 := Merge(list[i], c, now)];
    }
  }

  lemma {:induction false} ApplyIsInsert(list: seq<Condition>, c: Condition, now: nat)
    requires forall x :: x in list ==> x.ctype != c.ctype
    ensures multiset(Apply(list, c, now)) == multiset(list + [Stamped(c, now)])
  {
    if list != [] && !Less(c.ctype, list[0].ctype) {
      ApplyIsInsert(list[1..], c, now);
      assert list == [list[0]] + list[1..];
    }
  }

  /** A strictly sorted list is determined by what it contains. */
  lemma {:induction false} SortedUnique(a: seq<Condition>, b: seq<Condition>)
    requires StrictlySorted(a) && StrictlySorted(b) && multiset(a) == multiset(b)
    ensures a == b
  {
    SameElements(a, b);
    if a != [] {
      if a[0] != b[0] {
        assert a[0] in b && b[0] in a;
        LessTrichotomy(a[0].ctype, b[0].ctype);
      }
      assert a == [a[0]] + a[1..] && b == [b[0]] + b[1..];
      assert multiset(a[1..]) == multiset(a) - multiset{a[0]};
      assert multiset(b[1..]) == multiset(b) - multiset{b[0]};
      SortedUnique(a[1..], b[1..]);
    }
  }

  lemma {:induction false} SortedIsStrict(strict: seq<Condition>, sorted: seq<Condition>)
    requires StrictlySorted(strict) && multiset(strict) == multiset(sorted) && SortedBy(sorted, TypeBefore)
    ensures sorted == strict
  {
    forall i, j | 0 <= i < j < |strict| ensures strict[i] != strict[j] {
      LessTrichotomy(strict[i].ctype, strict[j].ctype);
    }
    DistinctFromMultiset(strict, sorted);
    SameElements(strict, sorted);
    forall i, j | 0 <= i < j < |sorted| ensures Less(sorted[i].ctype, sorted[j].ctype) {
      assert sorted[i] in strict && sorted[j] in strict;
      LessTrichotomy(sorted[i].ctype, sorted[j].ctype);
      assert !TypeBefore(sorted[j], sorted[i]);
    }
    SortedUnique(strict, sorted);
  }

  /** Sets a condition. On a list that earlier calls have left sorted this is exactly a write to
      the map: what the entry says afterwards is what was set, in every field, its time changes exactly
      when it said something else before, and no other entry changes. On any list the result is ordered
      by type. */
  method Set(list: seq<Condition>, condition: Condition, now: nat) returns (out: seq<Condition>)
    ensures StrictlySorted(list) ==> out == Apply(list, condition, now) && StrictlySorted(out)
    ensures StrictlySorted(list) ==> exists e :: e in out && e.ctype == condition.ctype
    ensures StrictlySorted(list) ==>
              forall e :: e in out && e.ctype == condition.ctype ==>
                && e.status == condition.status && e.reason == condition.reason
                && e.severity == condition.severity && e.message == condition.message
    ensures StrictlySorted(list) ==>
              forall b, e :: b in list && e in out && b.ctype == condition.ctype && e.ctype == condition.ctype ==>
                e.time == if (b.status == condition.status && b.reason == condition.reason
                              && b.severity == condition.severity && b.message == condition.message)
                          then b.time else now
    ensures StrictlySorted(list) ==> forall e: Condition :: e.ctype != condition.ctype ==> (e in out <==> e in list)
    ensures SortedBy(out, TypeBefore)
  {
    out := list;
    var exists' := false;
    var i := 0;
    while i < |list| && !exists'
      invariant 0 <= i <= |list|
      invariant !exists' ==> out == list && forall k :: 0 <= k < i ==> list[k].ctype != condition.ctype
      invariant exists' ==> StrictlySorted(list) ==> out == Apply(list, condition, now)
      decreases |list| - i, !exists'
    {
      if list[i].ctype == condition.ctype {
        exists' := true;
        if !HasSameState(list[i], condition) {
          out := out[i := condition.(time := now)];
        }
        assert out == list[i := Merge(list[i], condition, now)];
        if StrictlySorted(list) {
          ApplyIsUpdate(list, i, condition, now);
        }
      } else {
        i := i + 1;
      }
    }
    if !exists' {
      out := out + [Stamped(condition, now)];
      ApplyIsInsert(list, condition, now);
    }
    TypeOrder();
    ghost var unsorted := out;
    out := Sort(out, TypeBefore);
    if StrictlySorted(list) {
      ApplySorted(list, condition, now);
      SortedIsStrict(Apply(list, condition, now), out);
      WriteByField(list, condition, now);
    }
  }

  // ---- Any sequence of writes --------------------------------------------------------------

  datatype Write = Write(condition: Condition, now: nat)

  function ApplyAll(writes: seq<Write>): seq<Condition> {
    if writes == [] then []
    else
      var last := writes[|writes| - 1];
      Apply(ApplyAll(writes[..|writes| - 1]), last.condition, last.now)
  }

  ghost predicate WritesTo(writes: seq<Write>, i: int, t: string) {
    0 <= i < |writes| && writes[i].condition.ctype == t
  }

  /** The transition time a write leaves behind when it changes the state. */
  ghost function StampOf(writes: seq<Write>, j: nat, t: string): nat
    requires j < |writes|
  {
    if (exists i :: i < j && WritesTo(writes, i, t)) then writes[j].now
    else Stamped(writes[j].condition, writes[j].now).time
  }

  ghost predicate SameButTime(a: Condition, b: Condition) {
    a.(time := b.time) == b
  }

  /** `j` is the write at which the present state of type `t` was entered: since then every write
      to `t` repeated it, and the write to `t` before it, if any, had another state. */
  ghost predicate Entered(writes: seq<Write>, j: nat, t: string) {
    && WritesTo(writes, j, t)
    && (forall i :: j <= i && WritesTo(writes, i, t) ==> SameButTime(writes[i].condition, writes[j].condition))
    && (forall i :: i < j && WritesTo(writes, i, t) && (forall k :: i < k < j ==> !WritesTo(writes, k, t)) ==>
          !SameButTime(writes[i].condition, writes[j].condition))
  }

  /** What the list says about type `t` after the writes: nothing if there was none; otherwise the
      last state written, with the time at which that state was entered. */
  ghost predicate LastWriteWins(list: seq<Condition>, writes: seq<Write>, t: string) {
    match Lookup(list, t)
    case None => forall i :: !WritesTo(writes, i, t)
    case Some(c) => exists j: nat :: Describes(c, writes, j, t)
  }

  ghost predicate Describes(c: Condition, writes: seq<Write>, j: nat, t: string) {
    Entered(writes, j, t) && SameButTime(c, writes[j].condition) && c.time == StampOf(writes, j, t)
  }

  /** After any sequence of calls the list is sorted, without two entries of one type, and is the
      map from each type to its last state: the entry has the status, reason, severity and message of
      the last write to its type. */
  lemma {:induction false} ListIsLastWriterMap(writes: seq<Write>, t: string)
    ensures StrictlySorted(ApplyAll(writes))
    ensures LastWriteWins(ApplyAll(writes), writes, t)
    ensures forall j :: LastWriteTo(writes, j, t) ==> exists e :: e in ApplyAll(writes) && e.ctype == t
    ensures forall j, e :: LastWriteTo(writes, j, t) && e in ApplyAll(writes) && e.ctype == t ==>
              && e.status == writes[j].condition.status && e.reason == writes[j].condition.reason
              && e.severity == writes[j].condition.severity && e.message == writes[j].condition.message
  {
    AllSorted(writes);
    LastFieldsWin(writes, t);
    if writes == [] {
      NoWrites(t);
    } else {
      var before, last := writes[..|writes| - 1], writes[|writes| - 1];
      ListIsLastWriterMap(before, t);
      assert writes == before + [last];
      OneMoreWrite(ApplyAll(before), before, last, t);
    }
  }

  ghost predicate LastWriteTo(writes: seq<Write>, j: int, t: string) {
    WritesTo(writes, j, t) && forall i :: j < i < |writes| ==> writes[i].condition.ctype != t
  }

  lemma {:induction false} LastFieldsWin(writes: seq<Write>, t: string)
    ensures forall j :: LastWriteTo(writes, j, t) ==> exists e :: e in ApplyAll(writes) && e.ctype == t
    ensures forall j, e :: LastWriteTo(writes, j, t) && e in ApplyAll(writes) && e.ctype == t ==>
              && e.status == writes[j].condition.status && e.reason == writes[j].condition.reason
              && e.severity == writes[j].condition.severity && e.message == writes[j].condition.message
  {
    if writes != [] {
      var n := |writes| - 1;
      var before, last := writes[..n], writes[n];
      LastFieldsWin(before, t);
      AllSorted(before);
      WriteByField(ApplyAll(before), last.condition, last.now);
      forall j | LastWriteTo(writes, j, t)
        ensures if last.condition.ctype == t then j == n else LastWriteTo(before, j, t) && writes[j] == before[j]
      {
        LastWriteBefore(writes, j, t);
      }
    }
  }

  lemma LastWriteBefore(writes: seq<Write>, j: int, t: string)
    requires LastWriteTo(writes, j, t)
    ensures var n := |writes| - 1;
            if writes[n].condition.ctype == t then j == n
            else LastWriteTo(writes[..n], j, t) && writes[j] == writes[..n][j]
  {
  }

  lemma {:induction false} AllSorted(writes: seq<Write>)
    ensures StrictlySorted(ApplyAll(writes))
  {
    if writes != [] {
      var before, last := writes[..|writes| - 1], writes[|writes| - 1];
      AllSorted(before);
      ApplySorted(ApplyAll(before), last.condition, last.now);
    }
  }

  lemma NoWrites(t: string)
    ensures LastWriteWins([], [], t)
  {
  }

  lemma OneMoreWrite(list: seq<Condition>, before: seq<Write>, last: Write, t: string)
    requires StrictlySorted(list) && LastWriteWins(list, before, t)
    ensures LastWriteWins(Apply(list, last.condition, last.now), before + [last], t)
  {
    var writes := before + [last];
    LookupAfterApply(list, last.condition, last.now, t);
    assert forall i :: i != |before| ==> (WritesTo(writes, i, t) <==> WritesTo(before, i, t));
    match Lookup(list, t)
    case None =>
      if last.condition.ctype == t {
        assert Describes(Stamped(last.condition, last.now), writes, |before|, t);
      }
    case Some(c) =>
      var j: nat :| Describes(c, before, j, t);
      SameStamp(before, last, j, t);
      if last.condition.ctype == t && !SameButTime(c, last.condition) {
        StateChanged(before, last, j, t);
        assert WritesTo(writes, j, t);
        assert Describes(last.condition.(time := last.now), writes, |before|, t);
      } else {
        StateKept(before, last, j, t);
        assert Describes(c, writes, j, t);
      }
  }

  lemma SameStamp(before: seq<Write>, last: Write, j: nat, t: string)
    requires j < |before|
    ensures StampOf(before + [last], j, t) == StampOf(before, j, t)
  {
    assert forall i :: i < j ==> (WritesTo(before + [last], i, t) <==> WritesTo(before, i, t));
  }

  lemma StateKept(before: seq<Write>, last: Write, j: nat, t: string)
    requires Entered(before, j, t)
    requires last.condition.ctype == t ==> SameButTime(last.condition, before[j].condition)
    ensures Entered(before + [last], j, t)
  {
    var writes := before + [last];
    assert forall i :: i != |before| ==> (WritesTo(writes, i, t) <==> WritesTo(before, i, t));
  }

  lemma StateChanged(before: seq<Write>, last: Write, j: nat, t: string)
    requires Entered(before, j, t) && last.condition.ctype == t
    requires !SameButTime(last.condition, before[j].condition)
    ensures Entered(before + [last], |before|, t)
  {
    var writes := before + [last];
    var n := |before|;
    assert forall i :: i != n ==> (WritesTo(writes, i, t) <==> WritesTo(before, i, t));
    assert WritesTo(writes, j, t);
  }
}
