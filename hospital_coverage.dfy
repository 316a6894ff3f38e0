/**
 * Hospital count per neighbourhood and coverage buckets (activity2/src/activity2_2.py).
 *
 * The spatial join of hospitals into neighbourhoods is given as its result,
 * a sequence of (hospital, UT key) pairs. From it `analisis_final_categorias`
 * counts the pairs per UT key, left-merges the counts onto the
 * neighbourhood table, fills the neighbourhoods without a match with 0,
 * classifies each count into one of three buckets and sorts by count.
 */
module HospitalCoverage {
  import opened Wrappers

  /** A neighbourhood row: its UT key and its remaining columns. */
  datatype Colonia = Colonia(ut: string, fields: seq<string>)

  /** One row of the spatial join: a hospital lying within the neighbourhood with key `ut`. */
  datatype JoinRow = JoinRow(hospital: nat, ut: string)

  /** One row of groupby('UT').size().reset_index(name='num_hospitales'). */
  datatype KeyCount = KeyCount(ut: string, count: nat)

  /** One row of the left merge; `num` is None where pandas puts NaN. */
  datatype Merged = Merged(colonia: Colonia, num: Option<nat>)

  /** One row of the final frame. */
  datatype FinalRow = FinalRow(colonia: Colonia, num: nat, categoria: string)

  const NoCoverage := "0: Sin Cobertura"
  const OneCentre := "1: Un Hospital o Centro de salud"
  const SeveralCentres := "2+: Múltiples Centros"

  // ---------------------------------------------------------------------------
  // groupby('UT').size()

  /** The number of join pairs whose key is `k`. */
  function CountOf(join: seq<JoinRow>, k: string): (n: nat)
    ensures n <= |join|
    ensures n == 0 <==> forall i :: 0 <= i < |join| ==> join[i].ut != k
  {
    if join == [] then 0
    else
      var init := join[..|join| - 1];
      assert forall i :: 0 <= i < |init| ==> init[i] == join[i];
      CountOf(init, k) + (if join[|join| - 1].ut == k then 1 else 0)
  }

  predicate UniqueKeys(acc: seq<KeyCount>) {
    forall i, j :: 0 <= i < j < |acc| ==> acc[i].ut != acc[j].ut
  }

  predicate HasKey(acc: seq<KeyCount>, k: string) {
    exists i :: 0 <= i < |acc| && acc[i].ut == k
  }

  /** The count stored for `k`, 0 if there is none. */
  function CountAt(acc: seq<KeyCount>, k: string): nat {
    if acc == [] then 0 else if acc[0].ut == k then acc[0].count else CountAt(acc[1..], k)
  }

  function SumCounts(acc: seq<KeyCount>): nat {
    if acc == [] then 0 else acc[0].count + SumCounts(acc[1..])
  }

  /** Count one more pair with key `k`. */
  function AddKey(acc: seq<KeyCount>, k: string): seq<KeyCount> {
    if acc == [] then [KeyCount(k, 1)]
    else if acc[0].ut == k then [KeyCount(k, acc[0].count + 1)] + acc[1..]
    else [acc[0]] + AddKey(acc[1..], k)
  }

  /** The per-key counts of the join. The keys are kept in order of first
    * appearance; pandas sorts them, which the left merge does not observe. */
  function Conteo(join: seq<JoinRow>): seq<KeyCount> {
    if join == [] then [] else AddKey(Conteo(join[..|join| - 1]), join[|join| - 1].ut)
  }

  lemma HasKeyCons(x: KeyCount, rest: seq<KeyCount>, k: string)
    ensures HasKey([x] + rest, k) <==> x.ut == k || HasKey(rest, k)
  {
    var r := [x] + rest;
    if HasKey(r, k) && x.ut != k {
      var i :| 0 <= i < |r| && r[i].ut == k;
      assert rest[i - 1].ut == k;
    }
    if HasKey(rest, k) {
      var i :| 0 <= i < |rest| && rest[i].ut == k;
      assert r[i + 1].ut == k;
    }
    if x.ut == k {
      assert r[0].ut == k;
    }
  }

  lemma {:induction false} AddKeyKeys(acc: seq<KeyCount>, k: string)
    ensures forall m :: HasKey(AddKey(acc, k), m) <==> HasKey(acc, m) || m == k
  {
    var r := AddKey(acc, k);
    if acc == [] {
      forall m ensures HasKey(r, m) <==> m == k {
        HasKeyCons(KeyCount(k, 1), [], m);
      }
    } else {
      assert acc == [acc[0]] + acc[1..];
      if acc[0].ut == k {
        forall m ensures HasKey(r, m) <==> HasKey(acc, m) || m == k {
          HasKeyCons(r[0], acc[1..], m);
          HasKeyCons(acc[0], acc[1..], m);
        }
      } else {
        AddKeyKeys(acc[1..], k);
        forall m ensures HasKey(r, m) <==> HasKey(acc, m) || m == k {
          HasKeyCons(acc[0], AddKey(acc[1..], k), m);
          HasKeyCons(acc[0], acc[1..], m);
        }
      }
    }
  }

  lemma {:induction false} AddKeyUnique(acc: seq<KeyCount>, k: string)
    requires UniqueKeys(acc)
    ensures UniqueKeys(AddKey(acc, k))
  {
    var r := AddKey(acc, k);
    if acc == [] {
    } else if acc[0].ut == k {
      assert forall i :: 0 <= i < |r| ==> r[i].ut == acc[i].ut;
    } else {
      var rest := AddKey(acc[1..], k);
      AddKeyUnique(acc[1..], k);
      AddKeyKeys(acc[1..], k);
      forall j | 0 <= j < |rest| ensures rest[j].ut != acc[0].ut {
        var m := rest[j].ut;
        assert HasKey(rest, m);
        if m != k {
          var i :| 0 <= i < |acc[1..]| && acc[1..][i].ut == m;
          assert acc[i + 1].ut == m;
        }
      }
      assert forall i :: 1 <= i < |r| ==> r[i] == rest[i - 1];
    }
  }

  lemma {:induction false} AddKeyCounts(acc: seq<KeyCount>, k: string)
    ensures forall m :: CountAt(AddKey(acc, k), m) == CountAt(acc, m) + (if m == k then 1 else 0)
    ensures SumCounts(AddKey(acc, k)) == SumCounts(acc) + 1
  {
    var r := AddKey(acc, k);
    if acc == [] {
      assert r[1..] == [];
    } else if acc[0].ut == k {
      assert r[1..] == acc[1..];
    } else {
      AddKeyCounts(acc[1..], k);
      assert r[1..] == AddKey(acc[1..], k);
    }
  }

  /** Some pair of the join has key `k`. */
  predicate Joined(join: seq<JoinRow>, k: string) {
    exists i :: 0 <= i < |join| && join[i].ut == k
  }

  lemma JoinedSnoc(join: seq<JoinRow>, k: string)
    requires join != []
    ensures Joined(join, k) <==> Joined(join[..|join| - 1], k) || join[|join| - 1].ut == k
  {
    var init := join[..|join| - 1];
    if Joined(join, k) && join[|join| - 1].ut != k {
      var i :| 0 <= i < |join| && join[i].ut == k;
      assert init[i].ut == k;
    }
    if Joined(init, k) {
      var i :| 0 <= i < |init| && init[i].ut == k;
      assert join[i].ut == k;
    }
  }

  /** The count table has one row per key that occurs in the join, holding
    * that key's number of pairs, and its counts add up to the number of pairs. */
  lemma {:induction false} ConteoSpec(join: seq<JoinRow>)
    ensures UniqueKeys(Conteo(join))
    ensures forall k :: HasKey(Conteo(join), k) <==> Joined(join, k)
    ensures forall k :: CountAt(Conteo(join), k) == CountOf(join, k)
    ensures SumCounts(Conteo(join)) == |join|
  {
    if join != [] {
      var init, last := join[..|join| - 1], join[|join| - 1];
      ConteoSpec(init);
      AddKeyUnique(Conteo(init), last.ut);
      AddKeyKeys(Conteo(init), last.ut);
      AddKeyCounts(Conteo(init), last.ut);
      forall k ensures HasKey(Conteo(join), k) <==> Joined(join, k) {
        JoinedSnoc(join, k);
      }
    }
  }

  // ---------------------------------------------------------------------------
  // merge(conteo, on='UT', how='left') and fillna(0)

  /** The merged rows one neighbourhood gets: one per matching count row. */
  function MatchRows(c: Colonia, conteo: seq<KeyCount>): seq<Merged> {
    if conteo == [] then []
    else if conteo[0].ut == c.ut then [Merged(c, Some(conteo[0].count))] + MatchRows(c, conteo[1..])
    else MatchRows(c, conteo[1..])
  }

  /** A left merge keeps a neighbourhood without a match as one row with NaN. */
  function MergeRow(c: Colonia, conteo: seq<KeyCount>): seq<Merged> {
    if MatchRows(c, conteo) == [] then [Merged(c, None)] else MatchRows(c, conteo)
  }

  function MergeLeft(colonias: seq<Colonia>, conteo: seq<KeyCount>): seq<Merged> {
    if colonias == [] then [] else MergeRow(colonias[0], conteo) + MergeLeft(colonias[1..], conteo)
  }

  /** fillna(0): each row keeps its neighbourhood and its count, and a NaN
    * count becomes 0, so a stored 0 means NaN or a count of 0. */
  function FillNa(rows: seq<Merged>): (filled: seq<(Colonia, nat)>)
    ensures |filled| == |rows|
    ensures forall i :: 0 <= i < |rows| ==> filled[i].0 == rows[i].colonia
    ensures forall i :: 0 <= i < |rows| ==> rows[i].num.Some? ==> filled[i].1 == rows[i].num.value
    ensures forall i :: 0 <= i < |rows| ==> (filled[i].1 == 0 <==> rows[i].num.None? || rows[i].num == Some(0))
  {
    seq(|rows|, i requires 0 <= i < |rows| => (rows[i].colonia, if rows[i].num.Some? then rows[i].num.value else 0))
  }

  /** With unique keys, a neighbourhood matches at most one count row, and
    * it matches one exactly when its key is present. */
  lemma {:induction false} MatchRowsUnique(c: Colonia, conteo: seq<KeyCount>)
    requires UniqueKeys(conteo)
    ensures HasKey(conteo, c.ut) ==> MatchRows(c, conteo) == [Merged(c, Some(CountAt(conteo, c.ut)))]
    ensures !HasKey(conteo, c.ut) ==> MatchRows(c, conteo) == []
  {
    if conteo != [] {
      MatchRowsUnique(c, conteo[1..]);
      HasKeyCons(conteo[0], conteo[1..], c.ut);
      assert conteo == [conteo[0]] + conteo[1..];
      if conteo[0].ut == c.ut {
        assert !HasKey(conteo[1..], c.ut) by {
          assert forall i :: 0 <= i < |conteo[1..]| ==> conteo[1..][i] == conteo[i + 1];
        }
      }
    }
  }

  /** The left merge on unique keys has exactly one row per neighbourhood, in
    * the neighbourhoods' order, with the stored count or NaN. */
  lemma {:induction false} MergeLeftOneRowEach(colonias: seq<Colonia>, conteo: seq<KeyCount>)
    requires UniqueKeys(conteo)
    ensures |MergeLeft(colonias, conteo)| == |colonias|
    ensures forall i :: 0 <= i < |colonias| ==>
      && MergeLeft(colonias, conteo)[i].colonia == colonias[i]
      && MergeLeft(colonias, conteo)[i].num == (if HasKey(conteo, colonias[i].ut) then Some(CountAt(conteo, colonias[i].ut)) else None)
  {
    if colonias != [] {
      MergeLeftOneRowEach(colonias[1..], conteo);
      MatchRowsUnique(colonias[0], conteo);
      var rest := MergeLeft(colonias[1..], conteo);
      assert forall i :: 1 <= i < |colonias| ==> MergeLeft(colonias, conteo)[i] == rest[i - 1];
    }
  }

  /** Duplicate keys in the right table would repeat a neighbourhood. */
  lemma MergeLeftDuplicatesRows()
    ensures |MergeLeft([Colonia("A", [])], [KeyCount("A", 1), KeyCount("A", 2)])| == 2
  {
    var c := Colonia("A", []);
    var t := [KeyCount("A", 1), KeyCount("A", 2)];
    assert t[1..] == [KeyCount("A", 2)];
    assert t[1..][1..] == [];
    assert MatchRows(c, t) == [Merged(c, Some(1)), Merged(c, Some(2))];
  }

  // ---------------------------------------------------------------------------
  // clasificar, apply and sort_values

  function Clasificar(n: int): (categoria: string)
    ensures categoria == NoCoverage <==> n == 0
    ensures categoria == OneCentre <==> n == 1
    ensures categoria == SeveralCentres <==> n != 0 && n != 1
  {
    if n == 0 then NoCoverage
    else if n == 1 then OneCentre
    else SeveralCentres
  }

  /** apply(clasificar): each row keeps its neighbourhood and count and gains
    * the bucket of that count. */
  function Classify(rows: seq<(Colonia, nat)>): (out: seq<FinalRow>)
    ensures |out| == |rows|
    ensures forall i :: 0 <= i < |rows| ==> out[i].colonia == rows[i].0 && out[i].num == rows[i].1
    ensures forall i :: 0 <= i < |rows| ==> (out[i].categoria == NoCoverage <==> rows[i].1 == 0)
    ensures forall i :: 0 <= i < |rows| ==> (out[i].categoria == OneCentre <==> rows[i].1 == 1)
    ensures forall i :: 0 <= i < |rows| ==> (out[i].categoria == SeveralCentres <==> rows[i].1 >= 2)
  {
    seq(|rows|, i requires 0 <= i < |rows| => FinalRow(rows[i].0, rows[i].1, Clasificar(rows[i].1)))
  }

  predicate SortedByCount(rows: seq<FinalRow>) {
    forall i, j :: 0 <= i < j < |rows| ==> rows[i].num <= rows[j].num
  }

  function InsertByCount(x: FinalRow, sorted: seq<FinalRow>): (r: seq<FinalRow>)
    requires SortedByCount(sorted)
    ensures SortedByCount(r)
    ensures multiset(r) == multiset(sorted) + multiset{x}
  {
    if sorted == [] then [x]
    else if x.num <= sorted[0].num then [x] + sorted
    else
      var rest := InsertByCount(x, sorted[1..]);
      assert multiset(rest) == multiset(sorted[1..]) + multiset{x};
      assert sorted == [sorted[0]] + sorted[1..];
      forall j | 0 <= j < |rest| ensures sorted[0].num <= rest[j].num {
        assert rest[j] in multiset(rest);
        if rest[j] != x {
          assert rest[j] in multiset(sorted[1..]);
          var k :| 0 <= k < |sorted[1..]| && sorted[1..][k] == rest[j];
          assert sorted[k + 1] == rest[j];
        }
      }
      [sorted[0]] + rest
  }

  /** sort_values('num_hospitales'): ordered by count, a permutation of its
    * input. pandas' default sort is not stable, so the order among equal
    * counts is not part of the contract. */
  function SortByCount(rows: seq<FinalRow>): (sorted: seq<FinalRow>)
    ensures SortedByCount(sorted)
    ensures multiset(sorted) == multiset(rows)
  {
    if rows == [] then []
    else
      assert rows == [rows[0]] + rows[1..];
      InsertByCount(rows[0], SortByCount(rows[1..]))
  }

  /** The frame analisis_final_categorias plots. */
  function AnalisisFinal(colonias: seq<Colonia>, join: seq<JoinRow>): seq<FinalRow> {
    SortByCount(Classify(FillNa(MergeLeft(colonias, Conteo(join)))))
  }

  /** What the row of neighbourhood `c` should read. */
  function Expected(c: Colonia, join: seq<JoinRow>): FinalRow {
    FinalRow(c, CountOf(join, c.ut), Clasificar(CountOf(join, c.ut)))
  }

  /** After the merge and fillna(0), row i is neighbourhood i with its number
    * of joined hospitals, 0 for one that no hospital joined. */
  lemma FilledCounts(colonias: seq<Colonia>, join: seq<JoinRow>)
    ensures |FillNa(MergeLeft(colonias, Conteo(join)))| == |colonias|
    ensures forall i :: 0 <= i < |colonias| ==>
      FillNa(MergeLeft(colonias, Conteo(join)))[i] == (colonias[i], CountOf(join, colonias[i].ut))
  {
    var conteo := Conteo(join);
    ConteoSpec(join);
    MergeLeftOneRowEach(colonias, conteo);
    var filled := FillNa(MergeLeft(colonias, conteo));
    forall i | 0 <= i < |colonias| ensures filled[i] == (colonias[i], CountOf(join, colonias[i].ut)) {
      if !HasKey(conteo, colonias[i].ut) {
        assert forall j :: 0 <= j < |join| ==> join[j].ut != colonias[i].ut;
      }
    }
  }

  /** A classified row whose input is (c, n) is FinalRow(c, n, clasificar(n)). */
  lemma ClassifyAt(rows: seq<(Colonia, nat)>, i: int)
    requires 0 <= i < |rows|
    ensures Classify(rows)[i] == FinalRow(rows[i].0, rows[i].1, Clasificar(rows[i].1))
  {
    var out := Classify(rows);
    assert out[i].colonia == rows[i].0 && out[i].num == rows[i].1;
  }

  /** Before sorting, row i of the frame is what neighbourhood i should read. */
  lemma ClassifiedRows(colonias: seq<Colonia>, join: seq<JoinRow>)
    ensures Classify(FillNa(MergeLeft(colonias, Conteo(join)))) ==
      seq(|colonias|, i requires 0 <= i < |colonias| => Expected(colonias[i], join))
  {
    var filled := FillNa(MergeLeft(colonias, Conteo(join)));
    FilledCounts(colonias, join);
    ClassifiedRowsAt(filled, colonias, join);
  }

  lemma ClassifiedRowsAt(filled: seq<(Colonia, nat)>, colonias: seq<Colonia>, join: seq<JoinRow>)
    requires |filled| == |colonias|
    requires forall i :: 0 <= i < |colonias| ==> filled[i] == (colonias[i], CountOf(join, colonias[i].ut))
    ensures Classify(filled) == seq(|colonias|, i requires 0 <= i < |colonias| => Expected(colonias[i], join))
  {
    forall i | 0 <= i < |colonias|
      ensures Classify(filled)[i] == Expected(colonias[i], join)
    {
      ClassifyAt(filled, i);
    }
  }

  /** The final frame holds, in count order, exactly one row per
    * neighbourhood with its number of joined hospitals (0 for none) and the
    * bucket of that number. */
  lemma AnalisisFinalSpec(colonias: seq<Colonia>, join: seq<JoinRow>)
    ensures |AnalisisFinal(colonias, join)| == |colonias|
    ensures SortedByCount(AnalisisFinal(colonias, join))
    ensures multiset(AnalisisFinal(colonias, join)) == multiset(seq(|colonias|, i requires 0 <= i < |colonias| => Expected(colonias[i], join)))
  {
    ClassifiedRows(colonias, join);
    var classified := Classify(FillNa(MergeLeft(colonias, Conteo(join))));
    assert |SortByCount(classified)| == |classified| by {
      assert |multiset(SortByCount(classified))| == |multiset(classified)|;
    }
  }

  /** The number stored for a neighbourhood is 0 exactly when no hospital joined it. */
  lemma ZeroCountMeansNoHospital(c: Colonia, join: seq<JoinRow>)
    ensures Expected(c, join).num == 0 <==> forall i :: 0 <= i < |join| ==> join[i].ut != c.ut
    ensures Expected(c, join).categoria == NoCoverage <==> forall i :: 0 <= i < |join| ==> join[i].ut != c.ut
  {
  }

  // ---------------------------------------------------------------------------
  // The category colour map

  /** The colour dictionary as written: its middle key is "1: Un Centro". */
  const ColoursAsWritten: map<string, string> :=
    map[NoCoverage := "#bdc3c7", "1: Un Centro" := "#f39c12", SeveralCentres := "#c0392b"]

  /** The same dictionary keyed by the labels clasificar produces. */
  const ColoursCorrected: map<string, string> :=
    map[NoCoverage := "#bdc3c7", OneCentre := "#f39c12", SeveralCentres := "#c0392b"]

  /** The three lookups that build the ListedColormap, in order; a missing key raises KeyError. */
  function CmapColours(colores: map<string, string>): (r: Result<seq<string>, string>)
    ensures r.Ok? <==> NoCoverage in colores && OneCentre in colores && SeveralCentres in colores
    ensures r.Ok? ==> r.value == [colores[NoCoverage], colores[OneCentre], colores[SeveralCentres]]
  {
    if NoCoverage !in colores then Err(NoCoverage)
    else if OneCentre !in colores then Err(OneCentre)
    else if SeveralCentres !in colores then Err(SeveralCentres)
    else Ok([colores[NoCoverage], colores[OneCentre], colores[SeveralCentres]])
  }

  /** As written, the colour map cannot be built: the lookup of the middle bucket raises KeyError. */
  lemma CmapAsWrittenRaises()
    ensures CmapColours(ColoursAsWritten) == Err(OneCentre)
  {
    assert OneCentre != "1: Un Centro";
    assert OneCentre != NoCoverage && OneCentre != SeveralCentres;
  }

  /** With the keys matching clasificar's labels, every bucket has a colour and the map is built. */
  lemma CmapCorrectedBuilds()
    ensures CmapColours(ColoursCorrected) == Ok(["#bdc3c7", "#f39c12", "#c0392b"])
    ensures forall n :: Clasificar(n) in ColoursCorrected
  {
  }
}
