/**
 * The dashboard's reminder list: completion toggled by id, reminders grouped
 * under their time heading ('Hari Ini', 'Besok', …) in order of first
 * appearance, and the heading colour with its grey fallback.
 */
module ReminderList {

  /** A reminder; `type` of the source is `kind` here. */
  datatype Reminder = Reminder(id: int, title: string, time: string, completed: bool, kind: string)

  /**
   * `toggleCompletion(id)`: the list with `completed` flipped on every
   * reminder whose id matches and every other reminder as it was.
   */
  function ToggleCompletion(rs: seq<Reminder>, id: int): (r: seq<Reminder>)
    ensures |r| == |rs|
    ensures forall i :: 0 <= i < |rs| ==>
      r[i].id == rs[i].id && r[i].title == rs[i].title && r[i].time == rs[i].time && r[i].kind == rs[i].kind
    ensures forall i :: 0 <= i < |rs| ==> (r[i].completed != rs[i].completed <==> rs[i].id == id)
  {
    if rs == [] then []
    else
      var head := if rs[0].id == id then rs[0].(completed := !rs[0].completed) else rs[0];
      [head] + ToggleCompletion(rs[1..], id)
  }

  /** A reminder whose id does not match is left exactly as it was. */
  lemma ToggleLeavesOthers(rs: seq<Reminder>, id: int, i: int)
    requires 0 <= i < |rs| && rs[i].id != id
    ensures ToggleCompletion(rs, id)[i] == rs[i]
  {
  }

  /** Toggling the same id twice gives back the original list. */
  lemma ToggleTwice(rs: seq<Reminder>, id: int)
    ensures ToggleCompletion(ToggleCompletion(rs, id), id) == rs
  {
    var once := ToggleCompletion(rs, id);
    var twice := ToggleCompletion(once, id);
    assert forall i :: 0 <= i < |rs| ==> twice[i] == rs[i];
  }

  /** The group headings, in order of first appearance (the keys of the grouping object). */
  function Times(rs: seq<Reminder>): seq<string>
  {
    if rs == [] then []
    else
      var before := Times(rs[..|rs| - 1]);
      if rs[|rs| - 1].time in before then before else before + [rs[|rs| - 1].time]
  }

  /** The reminders under heading t, in list order. */
  function Having(rs: seq<Reminder>, t: string): seq<Reminder>
  {
    if rs == [] then []
    else Having(rs[..|rs| - 1], t) + (if rs[|rs| - 1].time == t then [rs[|rs| - 1]] else [])
  }

  predicate Distinct(ks: seq<string>) {
    forall i, j :: 0 <= i < j < |ks| ==> ks[i] != ks[j]
  }

  /** Some reminder of rs is under heading t. */
  predicate Carries(rs: seq<Reminder>, t: string) {
    exists i :: 0 <= i < |rs| && rs[i].time == t
  }

  /** The headings are distinct, and a heading is listed exactly when some reminder carries it. */
  lemma {:induction false} TimesAreTheTimes(rs: seq<Reminder>)
    ensures Distinct(Times(rs))
    ensures forall t :: t in Times(rs) <==> Carries(rs, t)
  {
    if rs != [] {
      var init := rs[..|rs| - 1];
      TimesAreTheTimes(init);
      forall t ensures Carries(rs, t) <==> Carries(init, t) || rs[|rs| - 1].time == t
      {
        if exists i :: 0 <= i < |rs| && rs[i].time == t {
          var i :| 0 <= i < |rs| && rs[i].time == t;
          if i < |init| { assert init[i].time == t; }
        }
        if exists i :: 0 <= i < |init| && init[i].time == t {
          var i :| 0 <= i < |init| && init[i].time == t;
          assert rs[i].time == t;
        }
      }
    }
  }

  /** A heading with no reminder has an empty group; a listed heading a non-empty one. */
  lemma {:induction false} HavingEmpty(rs: seq<Reminder>, t: string)
    ensures Having(rs, t) == [] <==> t !in Times(rs)
  {
    if rs != [] {
      HavingEmpty(rs[..|rs| - 1], t);
    }
  }

  /** Grouping a concatenation concatenates the groups: each group keeps the list's order. */
  lemma {:induction false} HavingAppend(a: seq<Reminder>, b: seq<Reminder>, t: string)
    ensures Having(a + b, t) == Having(a, t) + Having(b, t)
    decreases |b|
  {
    if b == [] {
      assert a + b == a;
    } else {
      var b0 := b[..|b| - 1];
      assert (a + b)[..|a + b| - 1] == a + b0;
      HavingAppend(a, b0, t);
    }
  }

  /** Every reminder lands in the group of its own heading, and only reminders with that heading are there. */
  lemma {:induction false} HavingMembers(rs: seq<Reminder>, t: string)
    ensures forall r :: r in Having(rs, t) <==> r in rs && r.time == t
  {
    if rs != [] {
      var init := rs[..|rs| - 1];
      HavingMembers(init, t);
      assert rs == init + [rs[|rs| - 1]];
    }
  }

  /** Total size of the groups named by ks. */
  function GroupSizes(ks: seq<string>, rs: seq<Reminder>): nat
  {
    if ks == [] then 0 else GroupSizes(ks[..|ks| - 1], rs) + |Having(rs, ks[|ks| - 1])|
  }

  /** Adding one reminder adds one to the total over distinct headings exactly when its heading is among them. */
  lemma {:induction false} GroupSizesStep(ks: seq<string>, rs: seq<Reminder>, r: Reminder)
    requires Distinct(ks)
    ensures GroupSizes(ks, rs + [r]) == GroupSizes(ks, rs) + (if r.time in ks then 1 else 0)
  {
    if ks != [] {
      var init := ks[..|ks| - 1];
      assert (rs + [r])[..|rs + [r]| - 1] == rs;
      GroupSizesStep(init, rs, r);
      assert r.time in ks <==> r.time in init || r.time == ks[|ks| - 1];
      assert r.time == ks[|ks| - 1] ==> r.time !in init;
    }
  }

  /** The group sizes add up to the length of the list. */
  lemma {:induction false} GroupSizesTotal(rs: seq<Reminder>)
    ensures GroupSizes(Times(rs), rs) == |rs|
  {
    if rs != [] {
      var init := rs[..|rs| - 1];
      var r := rs[|rs| - 1];
      assert rs == init + [r];
      GroupSizesTotal(init);
      TimesAreTheTimes(init);
      GroupSizesStep(Times(init), init, r);
      if r.time !in Times(init) {
        HavingEmpty(init, r.time);
        assert Having(rs, r.time) == [r];
      }
    }
  }

  /** The grouping object: its keys in insertion order, and the array under each key. */
  datatype Grouping = Grouping(order: seq<string>, groups: map<string, seq<Reminder>>)

  /**
   * `remindersByTime`: the reduce that creates a key on first sight of a
   * heading and pushes each reminder onto its heading's array.
   */
  method GroupByTime(rs: seq<Reminder>) returns (g: Grouping)
    ensures g.order == Times(rs)
    ensures forall t :: t in g.groups <==> t in g.order
    ensures forall t :: t in g.groups ==> g.groups[t] == Having(rs, t)
  {
    var order: seq<string> := [];
    var groups: map<string, seq<Reminder>> := map[];
    var i := 0;
    while i < |rs|
      invariant 0 <= i <= |rs|
      invariant order == Times(rs[..i])
      invariant forall t :: t in groups <==> t in order
      invariant forall t :: t in groups ==> groups[t] == Having(rs[..i], t)
    {
      var reminder := rs[i];
      assert rs[..i + 1][..i] == rs[..i];
      HavingEmpty(rs[..i], reminder.time);
      if reminder.time !in groups {
        groups := groups[reminder.time := []];
        order := order + [reminder.time];
      }
      groups := groups[reminder.time := groups[reminder.time] + [reminder]];
      i := i + 1;
    }
    assert rs[..i] == rs;
    g := Grouping(order, groups);
  }

  /** The heading colours of the source's colour map. */
  const TimeColorMap: map<string, string> := map[
    "Hari Ini" := "text-red-500",
    "Besok" := "text-yellow-500",
    "Yang Akan Datang" := "text-green-500"
  ]

  /** `timeColorMap[time] || 'text-gray-500'`. */
  function TimeColor(time: string): (c: string)
    ensures time in TimeColorMap ==> c == TimeColorMap[time]
    ensures time !in TimeColorMap ==> c == "text-gray-500"
    ensures time == "Hari Ini" ==> c == "text-red-500"
  {
    if time in TimeColorMap && TimeColorMap[time] != "" then TimeColorMap[time] else "text-gray-500"
  }
}
