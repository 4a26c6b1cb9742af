// The timeline view-model of frontend/src/components/timeline/timeline-container.tsx:
// the type and free-text filter, bucketing by calendar day, sibling lookup by
// commit SHA and toggling a type in the active set.
module Timeline {
  import opened Common

  /** A subcommit as the timeline receives it from the API. The title, idea,
      description and creation time are read through optional chaining and
      truthiness tests, so the model lets them be absent; `kind` is the raw
      `type` string, which the server may send outside the seven known names. */
  datatype Subcommit = Subcommit(
    id: int,
    createdAt: Option<string>,
    title: Option<string>,
    idea: Option<string>,
    description: Option<string>,
    commitSha: string,
    kind: string
  )

  /** One day bucket of the grouped view: the day key and its subcommits. */
  datatype DayGroup = DayGroup(day: string, items: seq<Subcommit>)

  /** The seven subcommit types, which is also the initial active set. */
  const DefaultActiveTypes: set<string> :=
    {"FEATURE", "BUG", "REFACTOR", "DOCS", "CHORE", "MILESTONE", "WARNING"}

  const UnknownDay: string := "unknown"

  // ---------------------------------------------------------------------
  // Order-preserving subsequences

  /** `a` is obtained from `b` by deleting elements, keeping the order. */
  predicate IsSubsequence<T(==)>(a: seq<T>, b: seq<T>)
    decreases |b|
  {
    a == [] ||
    (b != [] && ((a[0] == b[0] && IsSubsequence(a[1..], b[1..])) || IsSubsequence(a, b[1..])))
  }

  /** Prepending to the longer sequence keeps a subsequence one. */
  lemma SubsequenceOfCons<T>(a: seq<T>, x: T, b: seq<T>)
    requires IsSubsequence(a, b)
    ensures IsSubsequence(a, [x] + b)
  {
    assert ([x] + b)[1..] == b;
  }

  // ---------------------------------------------------------------------
  // Filtering by type and free text (the `filtered` memo, lines 64-76)

  /** `sc.field?.toLowerCase().includes(q)`: an absent field never matches. */
  predicate FieldMatches(field: Option<string>, q: string)
  {
    field.Some? && Contains(Lower(field.value), q)
  }

  /** The predicate passed to `subcommits.filter`. An empty query is falsy in
      JavaScript, so it skips the text test. */
  predicate Visible(sc: Subcommit, activeTypes: set<string>, query: string)
  {
    && sc.kind in activeTypes
    && (query == "" ||
        var q := Lower(query);
        FieldMatches(sc.title, q) || FieldMatches(sc.description, q) || FieldMatches(sc.idea, q))
  }

  /** `subcommits.filter(sc => Visible(sc, activeTypes, searchQuery))`. */
  function Filtered(subcommits: seq<Subcommit>, activeTypes: set<string>, query: string): (r: seq<Subcommit>)
    ensures |r| <= |subcommits|
    ensures forall sc :: sc in r <==> sc in subcommits && Visible(sc, activeTypes, query)
  {
    if subcommits == [] then []
    else
      var rest := Filtered(subcommits[1..], activeTypes, query);
      if Visible(subcommits[0], activeTypes, query) then [subcommits[0]] + rest else rest
  }

  /** The filtered list keeps the input order, so the filter bar's
      `resultCount` never exceeds its `totalCount`. */
  lemma {:induction false} FilteredIsSubsequence(subcommits: seq<Subcommit>, activeTypes: set<string>, query: string)
    ensures IsSubsequence(Filtered(subcommits, activeTypes, query), subcommits)
  {
    if subcommits != [] {
      var rest := Filtered(subcommits[1..], activeTypes, query);
      FilteredIsSubsequence(subcommits[1..], activeTypes, query);
      if Visible(subcommits[0], activeTypes, query) {
        assert ([subcommits[0]] + rest)[1..] == rest;
        assert subcommits[1..] == subcommits[1..];
      } else {
        SubsequenceOfCons(rest, subcommits[0], subcommits[1..]);
        assert [subcommits[0]] + subcommits[1..] == subcommits;
      }
    }
  }

  /** With every type active and no query, a list whose types are all among
      the seven known ones passes the filter unchanged. */
  lemma {:induction false} DefaultFilterKeepsValid(subcommits: seq<Subcommit>)
    requires forall i :: 0 <= i < |subcommits| ==> subcommits[i].kind in DefaultActiveTypes
    ensures Filtered(subcommits, DefaultActiveTypes, "") == subcommits
  {
    if subcommits != [] {
      DefaultFilterKeepsValid(subcommits[1..]);
      assert [subcommits[0]] + subcommits[1..] == subcommits;
    }
  }

  /** A subcommit whose type is none of the seven is hidden even by the
      initial, all-types active set. */
  lemma UnknownTypeHiddenByDefault(sc: Subcommit, query: string)
    requires sc.kind !in DefaultActiveTypes
    ensures Filtered([sc], DefaultActiveTypes, query) == []
  {
  }

  /** Filtering twice with the same inputs is filtering once. */
  lemma {:induction false} FilteredIdempotent(subcommits: seq<Subcommit>, activeTypes: set<string>, query: string)
    ensures Filtered(Filtered(subcommits, activeTypes, query), activeTypes, query) == Filtered(subcommits, activeTypes, query)
  {
    if subcommits != [] {
      FilteredIdempotent(subcommits[1..], activeTypes, query);
      var rest := Filtered(subcommits[1..], activeTypes, query);
      if Visible(subcommits[0], activeTypes, query) {
        assert ([subcommits[0]] + rest)[1..] == rest;
      }
    }
  }

  // ---------------------------------------------------------------------
  // Toggling a type (toggleType, lines 52-62)

  /** Copies the active set and flips the membership of `t` in the copy. */
  function ToggleType(activeTypes: set<string>, t: string): (r: set<string>)
    ensures t in r <==> t !in activeTypes
    ensures forall u :: u != t ==> (u in r <==> u in activeTypes)
  {
    if t in activeTypes then activeTypes - {t} else activeTypes + {t}
  }

  /** Toggling the same type twice restores the set. */
  lemma ToggleTwice(activeTypes: set<string>, t: string)
    ensures ToggleType(ToggleType(activeTypes, t), t) == activeTypes
  {
  }

  // ---------------------------------------------------------------------
  // Siblings (lines 80-87)

  /** The other entries of the unfiltered list that share the selected
      subcommit's commit SHA; nothing when no subcommit is selected. */
  function Siblings(subcommits: seq<Subcommit>, selected: Option<Subcommit>): (r: seq<Subcommit>)
    ensures selected.None? ==> r == []
    ensures selected.Some? ==>
      forall sc :: sc in r <==>
        sc in subcommits && sc.commitSha == selected.value.commitSha && sc.id != selected.value.id
  {
    if selected.None? || subcommits == [] then []
    else
      var sc := subcommits[0];
      var rest := Siblings(subcommits[1..], selected);
      if sc.commitSha == selected.value.commitSha && sc.id != selected.value.id then [sc] + rest else rest
  }

  /** Siblings keep the order of the unfiltered list and never include the
      selected subcommit itself. */
  lemma {:induction false} SiblingsInSourceOrder(subcommits: seq<Subcommit>, selected: Option<Subcommit>)
    ensures IsSubsequence(Siblings(subcommits, selected), subcommits)
    ensures selected.Some? ==> selected.value !in Siblings(subcommits, selected)
  {
    if selected.Some? && subcommits != [] {
      var sc := subcommits[0];
      var rest := Siblings(subcommits[1..], selected);
      SiblingsInSourceOrder(subcommits[1..], selected);
      if sc.commitSha == selected.value.commitSha && sc.id != selected.value.id {
        assert ([sc] + rest)[1..] == rest;
      } else {
        SubsequenceOfCons(rest, sc, subcommits[1..]);
        assert [sc] + subcommits[1..] == subcommits;
      }
    }
  }

  // ---------------------------------------------------------------------
  // Grouping by day (groupByDay, lines 18-28)

  /** `s.split("T")[0]`: the text before the first 'T'. */
  function BeforeT(s: string): (r: string)
    ensures StartsWith(s, r) && 'T' !in r
    ensures |r| < |s| ==> s[|r|] == 'T'
  {
    if s == [] || s[0] == 'T' then [] else [s[0]] + BeforeT(s[1..])
  }

  /** The bucket key of a creation time: the date part of its ISO form, or
      "unknown" when the time is absent or the empty (falsy) string. */
  function DayKey(createdAt: Option<string>): (r: string)
    ensures createdAt.None? || createdAt.value == "" ==> r == UnknownDay
    ensures createdAt.Some? && createdAt.value != "" ==> r == BeforeT(createdAt.value)
  {
    if createdAt.None? || createdAt.value == "" then UnknownDay else BeforeT(createdAt.value)
  }

  /** The subcommits whose day key is `day`, in input order. */
  function OnDay(subcommits: seq<Subcommit>, day: string): (r: seq<Subcommit>)
    ensures forall sc :: sc in r <==> sc in subcommits && DayKey(sc.createdAt) == day
  {
    if subcommits == [] then []
    else
      var rest := OnDay(subcommits[1..], day);
      if DayKey(subcommits[0].createdAt) == day then [subcommits[0]] + rest else rest
  }

  /** The subcommits whose day key lies in `days`, in input order. */
  function OnDays(subcommits: seq<Subcommit>, days: set<string>): seq<Subcommit>
  {
    if subcommits == [] then []
    else
      var rest := OnDays(subcommits[1..], days);
      if DayKey(subcommits[0].createdAt) in days then [subcommits[0]] + rest else rest
  }

  /** The day keys that occur in a list. */
  function Days(subcommits: seq<Subcommit>): set<string>
  {
    set sc | sc in subcommits :: DayKey(sc.createdAt)
  }

  predicate StrictlyDescending(keys: seq<string>)
  {
    forall i, j :: 0 <= i < j < |keys| ==> Below(keys[j], keys[i])
  }

  /** Inserts a new key into a strictly descending list of keys. */
  function InsertDescending(keys: seq<string>, k: string): (r: seq<string>)
    requires StrictlyDescending(keys) && k !in keys
    ensures StrictlyDescending(r)
    ensures forall x :: x in r <==> x in keys || x == k
    ensures |r| == |keys| + 1
  {
    if keys == [] then [k]
    else if Below(keys[0], k) then
      assert forall j :: 0 < j < |keys| ==> Below(keys[j], k) by {
        forall j | 0 < j < |keys| ensures Below(keys[j], k) {
          BelowTransitive(keys[j], keys[0], k);
        }
      }
      [k] + keys
    else
      BelowTotal(keys[0], k);
      var rest := InsertDescending(keys[1..], k);
      assert forall j :: 0 <= j < |rest| ==> Below(rest[j], keys[0]) by {
        forall j | 0 <= j < |rest| ensures Below(rest[j], keys[0]) {
          assert rest[j] in rest;
        }
      }
      [keys[0]] + rest
  }

  /** `[...groups.entries()].sort().reverse()` on the keys: the keys of
      the table in strictly descending order. */
  method SortDescending(keys: set<string>) returns (sorted: seq<string>)
    ensures StrictlyDescending(sorted)
    ensures forall k :: k in sorted <==> k in keys
  {
    sorted := [];
    var rest := keys;
    while rest != {}
      invariant StrictlyDescending(sorted)
      invariant forall k :: k in sorted <==> k in keys && k !in rest
      invariant rest <= keys
      decreases |rest|
    {
      var k :| k in rest;
      sorted := InsertDescending(sorted, k);
      rest := rest - {k};
    }
  }

  /** `table` holds, for each day key of `subcommits`, that day's subcommits. */
  ghost predicate Bucketed(table: map<string, seq<Subcommit>>, subcommits: seq<Subcommit>)
  {
    && table.Keys == Days(subcommits)
    && forall d :: d in table ==> table[d] == OnDay(subcommits, d)
  }

  /** The loop of groupByDay: each subcommit is appended to the bucket of
      its day key (`groups.set(day, [...existing, sc])`). */
  method BucketByDay(subcommits: seq<Subcommit>) returns (table: map<string, seq<Subcommit>>)
    ensures Bucketed(table, subcommits)
  {
    table := map[];
    assert subcommits[..0] == [];
    assert Days([]) == {};
    for n := 0 to |subcommits|
      invariant Bucketed(table, subcommits[..n])
    {
      var sc := subcommits[n];
      var day := DayKey(sc.createdAt);
      var existing := if day in table then table[day] else [];
      BucketStep(table, subcommits[..n], sc);
      table := table[day := existing + [sc]];
      PrefixSnoc(subcommits, n);
    }
    assert subcommits[..|subcommits|] == subcommits;
  }

  lemma BucketStep(table: map<string, seq<Subcommit>>, subcommits: seq<Subcommit>, sc: Subcommit)
    requires Bucketed(table, subcommits)
    ensures
      var day := DayKey(sc.createdAt);
      Bucketed(table[day := (if day in table then table[day] else []) + [sc]], subcommits + [sc])
  {
    var day := DayKey(sc.createdAt);
    var next := table[day := (if day in table then table[day] else []) + [sc]];
    assert Days(subcommits + [sc]) == Days(subcommits) + {day} by {
      forall d | d in Days(subcommits + [sc]) ensures d in Days(subcommits) + {day} {
        var x :| x in subcommits + [sc] && DayKey(x.createdAt) == d;
        if x != sc { assert x in subcommits; }
      }
      forall d | d in Days(subcommits) ensures d in Days(subcommits + [sc]) {
        var x :| x in subcommits && DayKey(x.createdAt) == d;
        assert x in subcommits + [sc];
      }
      assert sc in subcommits + [sc];
    }
    if day !in table {
      OnDayAbsent(subcommits, day);
    }
    forall d | d in next ensures next[d] == OnDay(subcommits + [sc], d) {
      OnDaySnoc(subcommits, sc, d);
    }
  }

  /** groupByDay: the buckets of BucketByDay in descending day-key order. */
  method GroupByDay(subcommits: seq<Subcommit>) returns (groups: seq<DayGroup>)
    ensures forall i, j :: 0 <= i < j < |groups| ==> Below(groups[j].day, groups[i].day)
    ensures forall i :: 0 <= i < |groups| ==> groups[i].items == OnDay(subcommits, groups[i].day)
    ensures forall i :: 0 <= i < |groups| ==> groups[i].items != []
    ensures forall d :: d in Days(subcommits) <==> exists i :: 0 <= i < |groups| && groups[i].day == d
  {
    var table := BucketByDay(subcommits);
    var days := SortDescending(table.Keys);
    groups := seq(|days|, i requires 0 <= i < |days| => DayGroup(days[i], table[days[i]]));
    GroupsOfTable(subcommits, table, days, groups);
  }

  /** The buckets listed in the order of the sorted keys meet groupByDay's
      promises. */
  lemma GroupsOfTable(subcommits: seq<Subcommit>, table: map<string, seq<Subcommit>>, days: seq<string>,
                      groups: seq<DayGroup>)
    requires Bucketed(table, subcommits)
    requires StrictlyDescending(days) && forall k :: k in days <==> k in table.Keys
    requires |groups| == |days| && forall i :: 0 <= i < |days| ==> groups[i] == DayGroup(days[i], table[days[i]])
    ensures forall i, j :: 0 <= i < j < |groups| ==> Below(groups[j].day, groups[i].day)
    ensures forall i :: 0 <= i < |groups| ==> groups[i].items == OnDay(subcommits, groups[i].day)
    ensures forall i :: 0 <= i < |groups| ==> groups[i].items != []
    ensures forall d :: d in Days(subcommits) <==> exists i :: 0 <= i < |groups| && groups[i].day == d
  {
    forall i | 0 <= i < |groups| ensures groups[i].items != [] {
      assert days[i] in Days(subcommits);
      var sc :| sc in subcommits && DayKey(sc.createdAt) == days[i];
      assert sc in groups[i].items;
    }
    forall d | d in Days(subcommits) ensures exists i :: 0 <= i < |groups| && groups[i].day == d {
      assert d in days;
      var i :| 0 <= i < |days| && days[i] == d;
      assert groups[i].day == d;
    }
  }

  lemma {:induction false} OnDaySnoc(subcommits: seq<Subcommit>, sc: Subcommit, day: string)
    ensures OnDay(subcommits + [sc], day) ==
      OnDay(subcommits, day) + (if DayKey(sc.createdAt) == day then [sc] else [])
  {
    if subcommits == [] {
      assert [sc][1..] == [];
    } else {
      assert (subcommits + [sc])[1..] == subcommits[1..] + [sc];
      OnDaySnoc(subcommits[1..], sc, day);
    }
  }

  lemma {:induction false} OnDayAbsent(subcommits: seq<Subcommit>, day: string)
    requires day !in Days(subcommits)
    ensures OnDay(subcommits, day) == []
  {
    if subcommits != [] {
      assert subcommits[0] in subcommits;
      assert Days(subcommits[1..]) <= Days(subcommits) by {
        forall d | d in Days(subcommits[1..]) ensures d in Days(subcommits) {
          var sc :| sc in subcommits[1..] && DayKey(sc.createdAt) == d;
          assert sc in subcommits;
        }
      }
      OnDayAbsent(subcommits[1..], day);
    }
  }

  // ---------------------------------------------------------------------
  // The grouping is a partition

  /** All buckets' contents, concatenated in bucket order. */
  function Flatten(groups: seq<DayGroup>): seq<Subcommit>
  {
    if groups == [] then [] else groups[0].items + Flatten(groups[1..])
  }

  function DaysOf(groups: seq<DayGroup>): set<string>
  {
    set g | g in groups :: g.day
  }

  lemma {:induction false} OnDaysInsert(subcommits: seq<Subcommit>, days: set<string>, day: string)
    requires day !in days
    ensures multiset(OnDays(subcommits, days + {day})) ==
      multiset(OnDays(subcommits, days)) + multiset(OnDay(subcommits, day))
  {
    if subcommits != [] {
      OnDaysInsert(subcommits[1..], days, day);
    }
  }

  lemma {:induction false} OnDaysEverything(subcommits: seq<Subcommit>, days: set<string>)
    requires Days(subcommits) <= days
    ensures OnDays(subcommits, days) == subcommits
  {
    if subcommits != [] {
      assert subcommits[0] in subcommits;
      assert Days(subcommits[1..]) <= Days(subcommits) by {
        forall d | d in Days(subcommits[1..]) ensures d in Days(subcommits) {
          var sc :| sc in subcommits[1..] && DayKey(sc.createdAt) == d;
          assert sc in subcommits;
        }
      }
      OnDaysEverything(subcommits[1..], days);
      assert [subcommits[0]] + subcommits[1..] == subcommits;
    }
  }

  lemma {:induction false} FlattenIsOnDays(subcommits: seq<Subcommit>, groups: seq<DayGroup>)
    requires forall i, j :: 0 <= i < j < |groups| ==> groups[i].day != groups[j].day
    requires forall i :: 0 <= i < |groups| ==> groups[i].items == OnDay(subcommits, groups[i].day)
    ensures multiset(Flatten(groups)) == multiset(OnDays(subcommits, DaysOf(groups)))
  {
    if groups == [] {
      assert DaysOf(groups) == {};
      OnDaysNone(subcommits);
    } else {
      var tail := groups[1..];
      FlattenIsOnDays(subcommits, tail);
      assert DaysOf(groups) == DaysOf(tail) + {groups[0].day} by {
        assert groups == [groups[0]] + tail;
      }
      assert groups[0].day !in DaysOf(tail) by {
        forall g | g in tail ensures g.day != groups[0].day {
          var j :| 0 <= j < |tail| && tail[j] == g;
          assert groups[j + 1] == g;
        }
      }
      OnDaysInsert(subcommits, DaysOf(tail), groups[0].day);
    }
  }

  lemma {:induction false} OnDaysNone(subcommits: seq<Subcommit>)
    ensures OnDays(subcommits, {}) == []
  {
    if subcommits != [] { OnDaysNone(subcommits[1..]); }
  }

  /** Grouping is a partition of its input: the buckets together hold every
      subcommit exactly as often as the input does, and no other. */
  lemma GroupingIsPartition(subcommits: seq<Subcommit>, groups: seq<DayGroup>)
    requires forall i, j :: 0 <= i < j < |groups| ==> Below(groups[j].day, groups[i].day)
    requires forall i :: 0 <= i < |groups| ==> groups[i].items == OnDay(subcommits, groups[i].day)
    requires forall d :: d in Days(subcommits) <==> exists i :: 0 <= i < |groups| && groups[i].day == d
    ensures multiset(Flatten(groups)) == multiset(subcommits)
  {
    forall i, j | 0 <= i < j < |groups| ensures groups[i].day != groups[j].day {
      if groups[i].day == groups[j].day { BelowIrreflexive(groups[i].day); }
    }
    FlattenIsOnDays(subcommits, groups);
    assert Days(subcommits) <= DaysOf(groups) by {
      forall d | d in Days(subcommits) ensures d in DaysOf(groups) {
        var i :| 0 <= i < |groups| && groups[i].day == d;
        assert groups[i] in groups;
      }
    }
    OnDaysEverything(subcommits, DaysOf(groups));
  }

  /** Each subcommit of the input lies in exactly one bucket: the one whose
      key is its own day key. */
  lemma BucketOfSubcommit(subcommits: seq<Subcommit>, groups: seq<DayGroup>, sc: Subcommit, i: int)
    requires forall i :: 0 <= i < |groups| ==> groups[i].items == OnDay(subcommits, groups[i].day)
    requires sc in subcommits && 0 <= i < |groups|
    ensures sc in groups[i].items <==> groups[i].day == DayKey(sc.createdAt)
  {
  }

  /** A day key taken from an ISO time starts with a digit; "unknown" is
      above every such key, so in the descending order its bucket comes first. */
  lemma UnknownBucketFirst(days: seq<string>)
    requires StrictlyDescending(days)
    requires UnknownDay in days
    requires forall i :: 0 <= i < |days| ==> days[i] == UnknownDay || (days[i] != [] && '0' <= days[i][0] <= '9')
    ensures days[0] == UnknownDay
  {
    var k :| 0 <= k < |days| && days[k] == UnknownDay;
    if days[0] != UnknownDay {
      DigitBelowUnknown(days[0]);
      BelowAsymmetric(days[0], days[k]);
    }
  }

  lemma DigitBelowUnknown(d: string)
    requires d != [] && '0' <= d[0] <= '9'
    ensures Below(d, UnknownDay)
  {
  }
}
