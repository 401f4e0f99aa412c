/**
 The two separately written queries for what a group is injected with: the joins,
 the conditions and the orders of each, and the agreement of what the two
 functions make of them.
 */
module SecretListings {
  import opened Wrappers
  import opened Secrets

  // -------------------------------------------------------------------------- joins

  /**
   A row of `secrets LEFT JOIN secret_assignments ... LEFT JOIN agent_groups ...`: the
   joined columns are None where the other table has no matching row. Its primary
   key lets at most one assignment match.
   */
  datatype Joined = Joined(secret: Secret, assignment: Option<(string, string)>, mode: Option<Mode>)

  function Join(s: State, group: string, r: Secret): Joined {
    Joined(
      r,
      if (r.id, group) in s.assignments then Some((r.id, group)) else None,
      if group in s.modes then Some(s.modes[group]) else None)
  }

  // ------------------------------------------------- SELECT of resolveInjectableSecrets

  predicate ResolveWhere(j: Joined, group: string) {
    && (j.secret.scope == Some(group) || j.secret.scope == None)
    && (j.mode == Some(All) || j.assignment != None)
  }

  function ResolveRows(s: State, secrets: seq<Secret>, group: string): seq<Secret> {
    if secrets == [] then []
    else
      var n := |secrets| - 1;
      var j := Join(s, group, secrets[n]);
      ResolveRows(s, secrets[..n], group) + if ResolveWhere(j, group) then [j.secret] else []
  }

  /** ORDER BY s.agent_group_id IS NULL: ties come in any order. */
  ghost predicate ResolveResult(rows: seq<Secret>, s: State, group: string) {
    && multiset(rows) == multiset(ResolveRows(s, s.secrets, group))
    && forall i, j | 0 <= i < j < |rows| :: rows[i].scope == None ==> rows[j].scope == None
  }

  // --------------------------------------------- SELECT of listInjectableSecretsForGroup

  predicate ListWhere(j: Joined, group: string) {
    && (j.secret.scope == Some(group) || j.secret.scope == None)
    && (j.mode == Some(All) || j.assignment != None)
  }

  function ListRows(s: State, secrets: seq<Secret>, group: string): seq<Listed> {
    if secrets == [] then []
    else
      var n := |secrets| - 1;
      var j := Join(s, group, secrets[n]);
      ListRows(s, secrets[..n], group) + if ListWhere(j, group) then [Listed(j.secret, j.assignment != None)] else []
  }

  /** Names compare character by character. */
  predicate NameLeq(a: string, b: string) {
    a == "" || (b != "" && (a[0] < b[0] || (a[0] == b[0] && NameLeq(a[1..], b[1..]))))
  }

  /** ORDER BY s.agent_group_id IS NULL, s.name */
  predicate ListLeq(a: Listed, b: Listed) {
    if a.secret.scope == None <==> b.secret.scope == None then NameLeq(a.secret.name, b.secret.name)
    else b.secret.scope == None
  }

  predicate Sorted(rows: seq<Listed>) {
    forall i, j | 0 <= i < j < |rows| :: ListLeq(rows[i], rows[j])
  }

  ghost predicate ListResult(rows: seq<Listed>, s: State, group: string) {
    multiset(rows) == multiset(ListRows(s, s.secrets, group)) && Sorted(rows)
  }

  // ------------------------------------------------------------- both are the listing

  predicate NoRepeats<T(==)>(rows: seq<T>) {
    forall i, j | 0 <= i < j < |rows| :: rows[i] != rows[j]
  }

  lemma {:induction false} NoRepeatsIsOnce<T>(rows: seq<T>)
    ensures NoRepeats(rows) <==> forall x | x in rows :: multiset(rows)[x] == 1
  {
    if rows != [] {
      var n := |rows| - 1;
      var init, last := rows[..n], rows[n];
      assert rows == init + [last];
      NoRepeatsIsOnce(init);
      assert multiset(rows) == multiset(init) + multiset{last};
      if NoRepeats(rows) {
        assert NoRepeats(init);
        assert last !in init;
      }
      if forall x | x in rows :: multiset(rows)[x] == 1 {
        assert multiset(rows)[last] == 1 && last !in init;
        assert forall x | x in init :: x in rows && x != last;
        assert forall i | 0 <= i < n :: rows[i] in init;
      }
    }
  }

  /** An order of rows without repeats has none either, and the same rows. */
  lemma SameRows<T>(a: seq<T>, b: seq<T>)
    requires multiset(a) == multiset(b) && NoRepeats(b)
    ensures NoRepeats(a) && forall x :: x in a <==> x in b
  {
    forall x
      ensures x in a <==> x in b
    {
      assert x in a <==> x in multiset(a);
      assert x in b <==> x in multiset(b);
    }
    NoRepeatsIsOnce(a);
    NoRepeatsIsOnce(b);
  }

  /** The two conditions, each written out in SQL, are the same gate. */
  lemma WhereIsPasses(s: State, r: Secret, group: string)
    ensures ResolveWhere(Join(s, group, r), group) <==> Passes(s, group, r)
    ensures ListWhere(Join(s, group, r), group) <==> Passes(s, group, r)
    ensures Join(s, group, r).secret == r && (Join(s, group, r).assignment != None <==> (r.id, group) in s.assignments)
  {
  }

  lemma {:induction false} ResolveRowsHold(s: State, secrets: seq<Secret>, group: string)
    requires NoRepeats(secrets)
    ensures forall r :: r in ResolveRows(s, secrets, group) <==> r in secrets && Passes(s, group, r)
    ensures NoRepeats(ResolveRows(s, secrets, group))
  {
    hide ResolveWhere, Passes, Join;
    if secrets != [] {
      var n := |secrets| - 1;
      ResolveRowsHold(s, secrets[..n], group);
      WhereIsPasses(s, secrets[n], group);
      assert secrets == secrets[..n] + [secrets[n]];
      assert forall i | 0 <= i < n :: secrets[i] in secrets[..n];
      hide NoRepeats;
    }
  }

  /** The row of the second query for a passing secret. */
  function ListedAs(s: State, r: Secret, group: string): Listed {
    Listed(r, (r.id, group) in s.assignments)
  }

  lemma {:induction false} ListRowsHold(s: State, secrets: seq<Secret>, group: string)
    requires NoRepeats(secrets)
    ensures forall l :: l in ListRows(s, secrets, group) <==>
              l.secret in secrets && Passes(s, group, l.secret) && l == ListedAs(s, l.secret, group)
    ensures NoRepeats(ListRows(s, secrets, group))
  {
    hide ListWhere, Passes, Join;
    if secrets != [] {
      var n := |secrets| - 1;
      ListRowsHold(s, secrets[..n], group);
      WhereIsPasses(s, secrets[n], group);
      assert secrets == secrets[..n] + [secrets[n]];
      assert forall i | 0 <= i < n :: secrets[i] in secrets[..n];
      hide NoRepeats;
    }
  }

  lemma UniqueRowsDiffer(secrets: seq<Secret>)
    requires UniqueRows(secrets)
    ensures NoRepeats(secrets)
  {
    forall i, j | 0 <= i < j < |secrets|
      ensures secrets[i] != secrets[j]
    {
      assert Apart(secrets[i], secrets[j]);
    }
  }

  lemma ResolveIsListing(rows: seq<Secret>, s: State, group: string)
    requires UniqueRows(s.secrets) && ResolveResult(rows, s, group)
    ensures IsListing(rows, s, group)
  {
    hide Passes, UniqueRows;
    UniqueRowsDiffer(s.secrets);
    ResolveRowsHold(s, s.secrets, group);
    SameRows(rows, ResolveRows(s, s.secrets, group));
  }

  lemma ListIsListing(rows: seq<Listed>, s: State, group: string)
    requires UniqueRows(s.secrets) && ListResult(rows, s, group)
    ensures IsListing(SecretsOf(rows), s, group) && Flagged(rows, group, s.assignments)
  {
    hide Passes, UniqueRows, NameLeq;
    UniqueRowsDiffer(s.secrets);
    ListRowsHold(s, s.secrets, group);
    SameRows(rows, ListRows(s, s.secrets, group));
    var secrets := SecretsOf(rows);
    forall r
      ensures r in secrets <==> r in s.secrets && Passes(s, group, r)
    {
      if r in s.secrets && Passes(s, group, r) {
        var l := ListedAs(s, r, group);
        assert l in rows;
        var i :| 0 <= i < |rows| && rows[i] == l;
        assert secrets[i] == r;
      }
      if r in secrets {
        var i :| 0 <= i < |secrets| && secrets[i] == r;
        assert rows[i] in rows;
      }
    }
    forall i, j | 0 <= i < j < |rows|
      ensures secrets[i] != secrets[j] && (secrets[i].scope == None ==> secrets[j].scope == None)
    {
      assert rows[i] in rows && rows[j] in rows && rows[i] != rows[j];
      assert ListLeq(rows[i], rows[j]);
    }
  }

  // ---------------------------------------------------------------------- agreement

  /** The view shows the row whose value is injected under its name. */
  predicate Shows(v: View, values: map<string, string>, secrets: seq<Secret>) {
    v.name in values && exists r | r in secrets :: r.id == v.id && r.name == v.name && r.value == values[v.name]
  }

  /**
   In every reachable state, whatever order the queries leave open: the panel names
   exactly what the container receives, and shows for each name the row it comes from.
   */
  lemma ListingsAgree(
      steps: seq<Step>, group: string, resolved: seq<Secret>, listed: seq<Listed>,
      values: map<string, string>, views: seq<View>)
    requires ResolveResult(resolved, Run(INITIAL, steps), group) && ListResult(listed, Run(INITIAL, steps), group)
    requires ValuesOf(values, resolved)
    requires ViewsOf(views, SecretsOf(listed), group, Run(INITIAL, steps).assignments)
    ensures forall name :: name in values <==> exists i | 0 <= i < |views| :: views[i].name == name
    ensures forall i | 0 <= i < |views| :: Shows(views[i], values, Run(INITIAL, steps).secrets)
  {
    hide ResolveResult, ListResult, IsListing, First, Winner, UniqueRows, Run;
    var s := Run(INITIAL, steps);
    InvHolds(steps);
    ResolveIsListing(resolved, s, group);
    ListIsListing(listed, s, group);
    forall name
      ensures First(resolved, name) == First(SecretsOf(listed), name)
    {
      FirstIsWinner(s, group, resolved, name);
      FirstIsWinner(s, group, SecretsOf(listed), name);
    }
    forall i | 0 <= i < |views|
      ensures Shows(views[i], values, s.secrets)
    {
      var r := First(resolved, views[i].name).value;
      assert r in s.secrets by { ListedIsStored(resolved, s, group, r); }
    }
    forall name | name in values
      ensures exists i | 0 <= i < |views| :: views[i].name == name
    {
      var r := First(SecretsOf(listed), name).value;
      assert r in SecretsOf(listed) && r.name == name;
    }
  }

  lemma ListedIsStored(rows: seq<Secret>, s: State, group: string, r: Secret)
    requires IsListing(rows, s, group) && r in rows
    ensures r in s.secrets
  {
  }

  // -------------------------------------------------------------- there are such orders

  lemma {:induction false} NamesCompare(a: string, b: string)
    ensures NameLeq(a, b) || NameLeq(b, a)
  {
    if a != "" && b != "" {
      NamesCompare(a[1..], b[1..]);
    }
  }

  lemma {:induction false} NamesChain(a: string, b: string, c: string)
    requires NameLeq(a, b) && NameLeq(b, c)
    ensures NameLeq(a, c)
  {
    if a != "" && b != "" && c != "" && a[0] == b[0] == c[0] {
      NamesChain(a[1..], b[1..], c[1..]);
    }
  }

  function InsertSorted(rows: seq<Listed>, l: Listed): seq<Listed> {
    if rows == [] || ListLeq(l, rows[0]) then [l] + rows else [rows[0]] + InsertSorted(rows[1..], l)
  }

  /** A row that goes before a sorted list, or behind its first one. */
  lemma SortedCons(l: Listed, rows: seq<Listed>)
    requires Sorted(rows) && forall x | x in rows :: ListLeq(l, x)
    ensures Sorted([l] + rows)
  {
    hide ListLeq;
    assert forall j | 0 <= j < |rows| :: rows[j] in rows;
  }

  lemma SortedTail(rows: seq<Listed>)
    requires Sorted(rows) && rows != []
    ensures Sorted(rows[1..]) && forall x | x in rows[1..] :: ListLeq(rows[0], x)
  {
    hide ListLeq;
    assert forall j | 0 <= j < |rows| - 1 :: rows[1..][j] == rows[j + 1];
  }

  lemma {:induction false} InsertSortedHolds(rows: seq<Listed>, l: Listed)
    requires Sorted(rows)
    ensures Sorted(InsertSorted(rows, l)) && multiset(InsertSorted(rows, l)) == multiset(rows) + multiset{l}
  {
    hide ListLeq, Sorted;
    if rows == [] {
      SortedCons(l, rows);
    } else {
      SortedTail(rows);
      assert rows == [rows[0]] + rows[1..];
      if ListLeq(l, rows[0]) {
        forall x | x in rows
          ensures ListLeq(l, x)
        {
          ListChains(l, rows[0], x);
        }
        SortedCons(l, rows);
      } else {
        var rest := InsertSorted(rows[1..], l);
        InsertSortedHolds(rows[1..], l);
        ListCompares(rows[0], l);
        forall x | x in rest
          ensures ListLeq(rows[0], x)
        {
          assert x in multiset(rest);
        }
        SortedCons(rows[0], rest);
      }
    }
  }

  lemma ListCompares(a: Listed, b: Listed)
    ensures ListLeq(a, b) || ListLeq(b, a)
  {
    NamesCompare(a.secret.name, b.secret.name);
  }

  lemma ListChains(a: Listed, b: Listed, c: Listed)
    ensures ListLeq(a, b) && (b == c || ListLeq(b, c)) ==> ListLeq(a, c)
  {
    if NameLeq(a.secret.name, b.secret.name) && NameLeq(b.secret.name, c.secret.name) {
      NamesChain(a.secret.name, b.secret.name, c.secret.name);
    }
  }

  function Sort(rows: seq<Listed>): seq<Listed> {
    if rows == [] then [] else InsertSorted(Sort(rows[..|rows| - 1]), rows[|rows| - 1])
  }

  lemma {:induction false} SortHolds(rows: seq<Listed>)
    ensures Sorted(Sort(rows)) && multiset(Sort(rows)) == multiset(rows)
  {
    if rows != [] {
      var n := |rows| - 1;
      SortHolds(rows[..n]);
      InsertSortedHolds(Sort(rows[..n]), rows[n]);
      assert rows == rows[..n] + [rows[n]];
    }
  }

  /** Both queries have a result in every state. */
  lemma ResultsExist(s: State, group: string)
    requires UniqueRows(s.secrets)
    ensures ListResult(Sort(ListRows(s, s.secrets, group)), s, group)
    ensures ResolveResult(SecretsOf(Sort(ListRows(s, s.secrets, group))), s, group)
  {
    hide NameLeq, Sort, ListWhere, ResolveWhere, IsListing, UniqueRows;
    var rows := ListRows(s, s.secrets, group);
    SortHolds(rows);
    SecretsOfListRows(s, s.secrets, group);
    SecretsOfSort(rows);
    ListIsListing(Sort(rows), s, group);
  }

  lemma {:induction false} SecretsOfListRows(s: State, secrets: seq<Secret>, group: string)
    ensures SecretsOf(ListRows(s, secrets, group)) == ResolveRows(s, secrets, group)
  {
    if secrets != [] {
      SecretsOfListRows(s, secrets[..|secrets| - 1], group);
    }
  }

  lemma SecretsCons(l: Listed, rows: seq<Listed>)
    ensures multiset(SecretsOf([l] + rows)) == multiset{l.secret} + multiset(SecretsOf(rows))
  {
    assert SecretsOf([l] + rows) == [l.secret] + SecretsOf(rows);
  }

  lemma {:induction false} SecretsOfInsert(rows: seq<Listed>, l: Listed)
    ensures multiset(SecretsOf(InsertSorted(rows, l))) == multiset(SecretsOf(rows)) + multiset{l.secret}
  {
    hide ListLeq, SecretsOf;
    if rows == [] || ListLeq(l, rows[0]) {
      SecretsCons(l, rows);
    } else {
      SecretsOfInsert(rows[1..], l);
      SecretsCons(rows[0], rows[1..]);
      SecretsCons(rows[0], InsertSorted(rows[1..], l));
      assert rows == [rows[0]] + rows[1..];
    }
  }

  lemma {:induction false} SecretsOfSort(rows: seq<Listed>)
    ensures multiset(SecretsOf(Sort(rows))) == multiset(SecretsOf(rows))
  {
    hide InsertSorted;
    if rows != [] {
      var n := |rows| - 1;
      SecretsOfSort(rows[..n]);
      SecretsOfInsert(Sort(rows[..n]), rows[n]);
      assert SecretsOf(rows) == SecretsOf(rows[..n]) + [rows[n].secret];
    }
  }
}
