/**
 * RDF university graph and its two views (activity5/Activity5.py).
 *
 * `construir_grafo_semantico` adds six triples per university of a fixed
 * table to an rdflib graph, which is a set of triples. Both views walk the
 * triples, skip those whose predicate is rdf:type and name every term by its
 * local name, the text after the last '#'. The static view builds a
 * networkx DiGraph (nodes in order of first appearance, one edge per
 * (subject, object) pair whose `relacion` is overwritten by later triples)
 * and assigns a colour and a size to each node by name. The interactive view
 * builds a pyvis network, where the first add_node of an id fixes its style
 * and every add_edge is kept. rdflib's iteration order is not specified, so
 * the views take the enumeration order as a parameter.
 */
module SemanticGraph {
  import opened Wrappers
  import opened Subsequences

  datatype Term = Uri(iri: string) | Lit(lexical: string, datatypeIri: string)

  datatype Triple = Triple(s: Term, p: Term, o: Term)

  datatype University = University(name: string, ciudad: string, anio: nat, publica: bool, alumnos: nat)

  const EXBase := "http://ejemplo.org/edu"
  const EX := EXBase + "#"
  const RdfType := Uri("http://www.w3.org/1999/02/22-rdf-syntax-ns#type")
  const XsdInteger := "http://www.w3.org/2001/XMLSchema#integer"
  const XsdBoolean := "http://www.w3.org/2001/XMLSchema#boolean"

  /** The dataset, in the dict's insertion order. */
  const DatosUnis: seq<University> := [
    University("UNAM", "CDMX", 1910, true, 257747),
    University("IPN", "CDMX", 1936, true, 140806),
    University("Tec_Monterrey", "Monterrey", 1943, false, 62168),
    University("UAM", "CDMX", 1974, true, 46512),
    University("UG", "Guanajuato", 1732, true, 30855)
  ]

  const UniversityNames: seq<string> := ["UNAM", "IPN", "Tec_Monterrey", "UAM", "UG"]
  const CityNames: seq<string> := ["CDMX", "Monterrey", "Guanajuato"]

  /** A term of the EX namespace. */
  function Ex(local: string): Term {
    Uri(EX + local)
  }

  function Digit(d: nat): char
    requires d < 10
  {
    ('0' as int + d) as char
  }

  /** The number a string of decimal digits denotes, most significant first. */
  function DigitsValue(s: string): int {
    if s == [] then 0 else DigitsValue(s[..|s| - 1]) * 10 + (s[|s| - 1] as int - '0' as int)
  }

  /** The lexical form rdflib gives an integer literal. */
  function NatToString(n: nat): (s: string)
    ensures |s| >= 1
    ensures forall i :: 0 <= i < |s| ==> '0' <= s[i] <= '9'
  {
    if n < 10 then [Digit(n)] else NatToString(n / 10) + [Digit(n % 10)]
  }

  /** That form is the decimal numeral of `n`, with no leading zero. */
  lemma {:induction false} NatToStringNumeral(n: nat)
    ensures DigitsValue(NatToString(n)) == n
    ensures NatToString(n)[0] == '0' <==> n == 0
  {
    if n >= 10 {
      NatToStringNumeral(n / 10);
      var s := NatToString(n);
      assert s[..|s| - 1] == NatToString(n / 10);
    }
  }

  function IntLit(n: nat): Term {
    Lit(NatToString(n), XsdInteger)
  }

  function BoolLit(b: bool): Term {
    Lit(if b then "true" else "false", XsdBoolean)
  }

  /** str(term): the IRI of a URI, the lexical form of a literal. */
  function Str(t: Term): string {
    match t
    case Uri(iri) => iri
    case Lit(lexical, _) => lexical
  }

  // ---------------------------------------------------------------------------
  // construir_grafo_semantico

  function CityType(ciudad: string): Triple {
    Triple(Ex(ciudad), RdfType, Ex("Ciudad"))
  }

  /** The five triples whose subject is the university itself. */
  function OwnTriples(u: University): set<Triple> {
    {
      Triple(Ex(u.name), RdfType, Ex("Universidad")),
      Triple(Ex(u.name), Ex("ubicada_en"), Ex(u.ciudad)),
      Triple(Ex(u.name), Ex("fundada_en"), IntLit(u.anio)),
      Triple(Ex(u.name), Ex("es_publica"), BoolLit(u.publica)),
      Triple(Ex(u.name), Ex("numero_alumnos"), IntLit(u.alumnos))
    }
  }

  /** The six g.add calls of one loop iteration. */
  function UniversityTriples(u: University): set<Triple> {
    OwnTriples(u) + {CityType(u.ciudad)}
  }

  function TriplesOf(unis: seq<University>): set<Triple> {
    if unis == [] then {} else TriplesOf(unis[..|unis| - 1]) + UniversityTriples(unis[|unis| - 1])
  }

  function Names(unis: seq<University>): set<string> {
    if unis == [] then {} else Names(unis[..|unis| - 1]) + {unis[|unis| - 1].name}
  }

  function Cities(unis: seq<University>): set<string> {
    if unis == [] then {} else Cities(unis[..|unis| - 1]) + {unis[|unis| - 1].ciudad}
  }

  /** rdflib's Graph: a mutable set of triples. */
  class TripleStore {
    var triples: set<Triple>

    constructor ()
      ensures triples == {}
    {
      triples := {};
    }

    method Add(t: Triple)
      modifies this
      ensures triples == old(triples) + {t}
    {
      triples := triples + {t};
    }
  }

  /** One iteration of the loop over datos_unis.items(): six g.add calls. */
  method AddUniversity(g: TripleStore, u: University)
    modifies g
    ensures g.triples == old(g.triples) + UniversityTriples(u)
  {
    g.Add(Triple(Ex(u.name), RdfType, Ex("Universidad")));
    g.Add(CityType(u.ciudad));
    g.Add(Triple(Ex(u.name), Ex("ubicada_en"), Ex(u.ciudad)));
    g.Add(Triple(Ex(u.name), Ex("fundada_en"), IntLit(u.anio)));
    g.Add(Triple(Ex(u.name), Ex("es_publica"), BoolLit(u.publica)));
    g.Add(Triple(Ex(u.name), Ex("numero_alumnos"), IntLit(u.alumnos)));
  }

  /** The loop over datos_unis.items(). */
  method AddUniversities(g: TripleStore, unis: seq<University>)
    modifies g
    ensures g.triples == old(g.triples) + TriplesOf(unis)
  {
    ghost var start := g.triples;
    for i := 0 to |unis|
      invariant g.triples == start + TriplesOf(unis[..i])
    {
      AddUniversity(g, unis[i]);
      assert unis[..i + 1][..i] == unis[..i];
      assert TriplesOf(unis[..i + 1]) == TriplesOf(unis[..i]) + UniversityTriples(unis[i]);
    }
    assert unis[..|unis|] == unis;
  }

  method ConstruirGrafoSemantico() returns (g: TripleStore)
    ensures fresh(g)
    ensures g.triples == TriplesOf(DatosUnis)
  {
    g := new TripleStore();
    AddUniversities(g, DatosUnis);
  }

  lemma ExInjective(a: string, b: string)
    requires Ex(a) == Ex(b)
    ensures a == b
  {
    assert a == (EX + a)[|EX|..];
    assert b == (EX + b)[|EX|..];
  }

  lemma ExNotRdfType(a: string)
    ensures Ex(a) != RdfType
  {
    assert (EX + a)[7] == 'e';
    assert RdfType.iri[7] == 'w';
  }

  /** The namespace-local part of an EX term. */
  function LocalOfEx(t: Term): string {
    if t.Uri? && |t.iri| >= |EX| then t.iri[|EX|..] else ""
  }

  /** The subject of each triple a university adds is its own name or its city's. */
  lemma UniversitySubjects(u: University)
    ensures forall t :: t in UniversityTriples(u) ==>
      t.s == Ex(LocalOfEx(t.s)) && (LocalOfEx(t.s) == u.name || LocalOfEx(t.s) == u.ciudad)
    ensures forall t :: t in UniversityTriples(u) && t.p != RdfType ==> LocalOfEx(t.s) == u.name
  {
    LocalOfExEx(u.name);
    LocalOfExEx(u.ciudad);
  }

  lemma {:induction false} TriplesOfSubjects(unis: seq<University>)
    ensures forall t :: t in TriplesOf(unis) ==>
      t.s == Ex(LocalOfEx(t.s)) && LocalOfEx(t.s) in Names(unis) + Cities(unis)
    ensures forall t :: t in TriplesOf(unis) && t.p != RdfType ==> LocalOfEx(t.s) in Names(unis)
  {
    if unis != [] {
      var init, u := unis[..|unis| - 1], unis[|unis| - 1];
      TriplesOfSubjects(init);
      UniversitySubjects(u);
      assert TriplesOf(unis) == TriplesOf(init) + UniversityTriples(u);
      assert Names(unis) == Names(init) + {u.name};
      assert Cities(unis) == Cities(init) + {u.ciudad};
    }
  }

  lemma {:induction false} CityTypeIn(unis: seq<University>, c: string)
    requires c in Cities(unis)
    ensures CityType(c) in TriplesOf(unis)
  {
    var init := unis[..|unis| - 1];
    if c != unis[|unis| - 1].ciudad {
      CityTypeIn(init, c);
    }
  }

  lemma OwnTriplesCount(u: University)
    ensures |OwnTriples(u)| == 5
  {
    var a := Triple(Ex(u.name), RdfType, Ex("Universidad"));
    var b := Triple(Ex(u.name), Ex("ubicada_en"), Ex(u.ciudad));
    var c := Triple(Ex(u.name), Ex("fundada_en"), IntLit(u.anio));
    var d := Triple(Ex(u.name), Ex("es_publica"), BoolLit(u.publica));
    var e := Triple(Ex(u.name), Ex("numero_alumnos"), IntLit(u.alumnos));
    ExNotRdfType("ubicada_en");
    ExNotRdfType("fundada_en");
    ExNotRdfType("es_publica");
    ExNotRdfType("numero_alumnos");
    DistinctPredicates();
    assert |{a}| == 1;
    assert b !in {a};
    assert |{a, b}| == 2;
    assert c !in {a, b};
    assert |{a, b, c}| == 3;
    assert d !in {a, b, c};
    assert |{a, b, c, d}| == 4;
    assert e !in {a, b, c, d};
  }

  lemma ExFirstCharDiffers(a: string, b: string)
    requires |a| > 0 && |b| > 0 && a[0] != b[0]
    ensures Ex(a) != Ex(b)
  {
    assert (EX + a)[|EX|] == a[0];
    assert (EX + b)[|EX|] == b[0];
  }

  lemma DistinctPredicates()
    ensures Ex("ubicada_en") != Ex("fundada_en") && Ex("ubicada_en") != Ex("es_publica")
    ensures Ex("ubicada_en") != Ex("numero_alumnos") && Ex("fundada_en") != Ex("es_publica")
    ensures Ex("fundada_en") != Ex("numero_alumnos") && Ex("es_publica") != Ex("numero_alumnos")
  {
    ExFirstCharDiffers("ubicada_en", "fundada_en");
    ExFirstCharDiffers("ubicada_en", "es_publica");
    ExFirstCharDiffers("ubicada_en", "numero_alumnos");
    ExFirstCharDiffers("fundada_en", "es_publica");
    ExFirstCharDiffers("fundada_en", "numero_alumnos");
    ExFirstCharDiffers("es_publica", "numero_alumnos");
  }

  lemma LocalOfExEx(n: string)
    ensures LocalOfEx(Ex(n)) == n
  {
    assert (EX + n)[|EX|..] == n;
  }

  lemma OwnSubjects(u: University)
    ensures forall t :: t in OwnTriples(u) ==> t.s == Ex(u.name)
  {
  }

  /** A university whose name is not yet a subject adds five new triples. */
  lemma OwnTriplesAreNew(init: seq<University>, u: University)
    requires u.name !in Names(init) + Cities(init)
    ensures OwnTriples(u) * TriplesOf(init) == {}
  {
    TriplesOfSubjects(init);
    LocalOfExEx(u.name);
    OwnSubjects(u);
    forall t | t in OwnTriples(u) ensures t !in TriplesOf(init) {
      assert t.s == Ex(u.name);
    }
  }

  /** The type triple of a city that is not yet a subject is new. */
  lemma CityTypeIsNew(init: seq<University>, c: string)
    requires c !in Names(init) + Cities(init)
    ensures CityType(c) !in TriplesOf(init)
  {
    TriplesOfSubjects(init);
    LocalOfExEx(c);
  }

  lemma CityTypeNotOwn(u: University)
    requires u.name != u.ciudad
    ensures CityType(u.ciudad) !in OwnTriples(u)
  {
    if CityType(u.ciudad) in OwnTriples(u) {
      ExInjective(u.ciudad, u.name);
    }
  }

  /** The counting step: five new triples, plus the city's type triple when the city is new. */
  lemma UnionCount(prev: set<Triple>, own: set<Triple>, ct: Triple, cities: set<string>, c: string, n: nat)
    requires |prev| == 5 * n + |cities| && |own| == 5
    requires own * prev == {} && ct !in own
    requires c in cities <==> ct in prev
    ensures |prev + own + {ct}| == 5 * (n + 1) + |cities + {c}|
  {
    assert |prev + own| == |prev| + |own|;
    if ct in prev {
      assert prev + own + {ct} == prev + own;
      assert cities + {c} == cities;
    }
  }

  /** The last university's name is neither an earlier name nor an earlier city. */
  lemma LastNameIsFresh(unis: seq<University>)
    requires unis != []
    requires forall i, j :: 0 <= i < j < |unis| ==> unis[i].name != unis[j].name
    requires forall i, j :: 0 <= i < |unis| && 0 <= j < |unis| ==> unis[i].name != unis[j].ciudad
    ensures unis[|unis| - 1].name !in Names(unis[..|unis| - 1]) + Cities(unis[..|unis| - 1])
    ensures unis[|unis| - 1].ciudad !in Names(unis[..|unis| - 1])
    ensures unis[|unis| - 1].name != unis[|unis| - 1].ciudad
  {
    var init := unis[..|unis| - 1];
    assert forall i :: 0 <= i < |init| ==> init[i] == unis[i];
    NamesAt(init);
    CitiesAt(init);
  }

  /** With distinct university names, none of which is a city: each
    * university contributes five triples of its own, and each distinct city
    * one type triple, because the graph is a set. */
  lemma {:induction false} TriplesOfCount(unis: seq<University>)
    requires forall i, j :: 0 <= i < j < |unis| ==> unis[i].name != unis[j].name
    requires forall i, j :: 0 <= i < |unis| && 0 <= j < |unis| ==> unis[i].name != unis[j].ciudad
    ensures |TriplesOf(unis)| == 5 * |unis| + |Cities(unis)|
  {
    if unis != [] {
      var init, u := unis[..|unis| - 1], unis[|unis| - 1];
      assert forall i :: 0 <= i < |init| ==> init[i] == unis[i];
      TriplesOfCount(init);
      LastNameIsFresh(unis);
      OwnTriplesCount(u);
      OwnTriplesAreNew(init, u);
      CityTypeNotOwn(u);
      var ct := CityType(u.ciudad);
      if u.ciudad in Cities(init) {
        CityTypeIn(init, u.ciudad);
      } else {
        CityTypeIsNew(init, u.ciudad);
      }
      UnionCount(TriplesOf(init), OwnTriples(u), ct, Cities(init), u.ciudad, |init|);
      assert TriplesOf(unis) == TriplesOf(init) + UniversityTriples(u);
      assert UniversityTriples(u) == OwnTriples(u) + {ct};
      assert TriplesOf(init) + (OwnTriples(u) + {ct}) == TriplesOf(init) + OwnTriples(u) + {ct};
      assert Cities(unis) == Cities(init) + {u.ciudad};
    }
  }

  lemma {:induction false} NamesAt(unis: seq<University>)
    ensures forall n :: n in Names(unis) ==> exists i :: 0 <= i < |unis| && unis[i].name == n
  {
    if unis != [] {
      var init := unis[..|unis| - 1];
      NamesAt(init);
      assert forall i :: 0 <= i < |init| ==> init[i] == unis[i];
    }
  }

  lemma {:induction false} CitiesAt(unis: seq<University>)
    ensures forall n :: n in Cities(unis) ==> exists i :: 0 <= i < |unis| && unis[i].ciudad == n
  {
    if unis != [] {
      var init := unis[..|unis| - 1];
      CitiesAt(init);
      assert forall i :: 0 <= i < |init| ==> init[i] == unis[i];
    }
  }

  lemma DatosUnisNamesAndCities()
    ensures Names(DatosUnis) == {"UNAM", "IPN", "Tec_Monterrey", "UAM", "UG"}
    ensures Cities(DatosUnis) == {"CDMX", "Monterrey", "Guanajuato"}
  {
    var d := DatosUnis;
    var s1 := [d[0]];
    var s2 := s1 + [d[1]];
    var s3 := s2 + [d[2]];
    var s4 := s3 + [d[3]];
    assert s4 + [d[4]] == d;
    assert d[..4] == s4 && s4[..3] == s3 && s3[..2] == s2 && s2[..1] == s1 && s1[..0] == [];
    assert Names(s1) == {"UNAM"} && Cities(s1) == {"CDMX"};
    assert Names(s2) == {"UNAM", "IPN"} && Cities(s2) == {"CDMX"};
    assert Names(s3) == {"UNAM", "IPN", "Tec_Monterrey"} && Cities(s3) == {"CDMX", "Monterrey"};
    assert Names(s4) == {"UNAM", "IPN", "Tec_Monterrey", "UAM"} && Cities(s4) == {"CDMX", "Monterrey"};
  }

  /** The university table yields 25 + 3 = 28 distinct triples. */
  lemma DatosUnisTripleCount()
    ensures |TriplesOf(DatosUnis)| == 28
  {
    DatosUnisNamesAndCities();
    assert |Cities(DatosUnis)| == 3;
    TriplesOfCount(DatosUnis);
  }

  // ---------------------------------------------------------------------------
  // Local names

  /** s.split('#')[-1]: the text after the last '#', or all of `s`. */
  function LocalName(s: string): string {
    if s == [] then []
    else if '#' !in s then s
    else LocalName(s[1..])
  }

  /** The local name is a suffix free of '#', preceded by '#' unless it is the whole string. */
  lemma {:induction false} LocalNameSuffix(s: string)
    ensures '#' !in LocalName(s)
    ensures |LocalName(s)| <= |s| && LocalName(s) == s[|s| - |LocalName(s)|..]
    ensures |LocalName(s)| < |s| ==> s[|s| - |LocalName(s)| - 1] == '#'
  {
    if s != [] && '#' in s {
      LocalNameSuffix(s[1..]);
      var r := LocalName(s[1..]);
      assert s[1..][|s[1..]| - |r|..] == s[|s| - |r|..];
      if |r| == |s[1..]| {
        assert s == [s[0]] + r;
      }
    }
  }

  /** str.split(sep) in Python: the pieces between separators, at least one. */
  function Split(s: string, sep: char): (pieces: seq<string>)
    ensures |pieces| >= 1
  {
    if s == [] then [""]
    else if s[0] == sep then [""] + Split(s[1..], sep)
    else
      var rest := Split(s[1..], sep);
      [[s[0]] + rest[0]] + rest[1..]
  }

  lemma {:induction false} SplitWithoutSeparator(s: string, sep: char)
    requires sep !in s
    ensures Split(s, sep) == [s]
  {
    if s != [] {
      SplitWithoutSeparator(s[1..], sep);
      assert [s[0]] + s[1..] == s;
    }
  }

  lemma {:induction false} SplitHasMany(s: string, sep: char)
    requires sep in s
    ensures |Split(s, sep)| >= 2
  {
    if s[0] != sep {
      SplitHasMany(s[1..], sep);
    }
  }

  /** s.split('#')[-1], the expression the source evaluates. */
  function LastPiece(s: string): string {
    var pieces := Split(s, '#');
    pieces[|pieces| - 1]
  }

  /** Dropping the first character of a string that contains '#' keeps the last piece. */
  lemma LastPieceStep(s: string)
    requires '#' in s
    ensures LastPiece(s) == LastPiece(s[1..])
  {
    var pieces, rest := Split(s, '#'), Split(s[1..], '#');
    if s[0] != '#' {
      assert '#' in s[1..] by {
        assert s == [s[0]] + s[1..];
      }
      SplitHasMany(s[1..], '#');
      assert pieces == [[s[0]] + rest[0]] + rest[1..];
    }
  }

  lemma LastPieceWithoutHash(s: string)
    requires '#' !in s
    ensures LastPiece(s) == LocalName(s)
  {
    SplitWithoutSeparator(s, '#');
  }

  /** The last piece of split('#') is the local name. */
  lemma {:induction false} LastPieceIsLocalName(s: string)
    ensures LastPiece(s) == LocalName(s)
  {
    if '#' !in s {
      LastPieceWithoutHash(s);
    } else {
      LastPieceIsLocalName(s[1..]);
      LastPieceStep(s);
    }
  }

  /** `str(o).split('#')[-1] if '#' in str(o) else str(o)`. */
  function ObjectName(s: string): string {
    if '#' in s then LocalName(s) else s
  }

  /** The conditional extraction used for objects equals the plain one used for subjects. */
  lemma ObjectNameIsLocalName(s: string)
    ensures ObjectName(s) == LocalName(s)
  {
  }

  lemma {:induction false} LocalNameAfterHash(p: string, n: string)
    requires '#' !in n
    ensures LocalName(p + "#" + n) == n
  {
    var s := p + "#" + n;
    assert s[|p|] == '#';
    if p == [] {
      assert s[1..] == n;
    } else {
      assert s[1..] == p[1..] + "#" + n;
      LocalNameAfterHash(p[1..], n);
    }
  }

  lemma LocalNameOfEx(n: string)
    requires '#' !in n
    ensures LocalName(Str(Ex(n))) == n
  {
    LocalNameAfterHash(EXBase, n);
  }

  // ---------------------------------------------------------------------------
  // visualizacion_estatica_premium

  function SubjectName(t: Triple): string { LocalName(Str(t.s)) }
  function PredicateName(t: Triple): string { LocalName(Str(t.p)) }
  function ObjectNameOf(t: Triple): string { ObjectName(Str(t.o)) }

  /** A networkx DiGraph: nodes in insertion order and the `relacion` of each edge. */
  datatype NxGraph = NxGraph(nodes: seq<string>, edges: map<(string, string), string>)

  function AddNxNode(g: NxGraph, n: string): NxGraph {
    if n in g.nodes then g else g.(nodes := g.nodes + [n])
  }

  /** add_edge(u, v, relacion=rel): adds missing endpoints, then sets the attribute. */
  function AddNxEdge(g: NxGraph, u: string, v: string, rel: string): NxGraph {
    var g1 := AddNxNode(AddNxNode(g, u), v);
    g1.(edges := g1.edges[(u, v) := rel])
  }

  /** The DiGraph after the loop over the triples in enumeration order `order`. */
  function StaticGraph(order: seq<Triple>): NxGraph {
    if order == [] then NxGraph([], map[])
    else
      var g := StaticGraph(order[..|order| - 1]);
      var t := order[|order| - 1];
      if t.p == RdfType then g else AddNxEdge(g, SubjectName(t), ObjectNameOf(t), PredicateName(t))
  }

  /** The triple is not skipped and draws an edge from `u` to `v`. */
  predicate Draws(t: Triple, u: string, v: string) {
    t.p != RdfType && SubjectName(t) == u && ObjectNameOf(t) == v
  }

  /** The triple is not skipped and names `n` as its subject or object. */
  predicate NamesNode(t: Triple, n: string) {
    t.p != RdfType && (SubjectName(t) == n || ObjectNameOf(t) == n)
  }

  /** Some non-type triple names `n`. */
  predicate Mentions(order: seq<Triple>, n: string) {
    exists i :: 0 <= i < |order| && NamesNode(order[i], n)
  }

  /** The index of the last triple that draws the edge (u, v). */
  function LastEdge(order: seq<Triple>, u: string, v: string): (r: Option<nat>)
    ensures r.Some? ==> r.value < |order|
  {
    if order == [] then None
    else if Draws(order[|order| - 1], u, v) then Some(|order| - 1)
    else LastEdge(order[..|order| - 1], u, v)
  }

  /** LastEdge finds the last drawing triple, or reports that none draws (u, v). */
  lemma {:induction false} LastEdgeSpec(order: seq<Triple>, u: string, v: string)
    ensures LastEdge(order, u, v).Some? ==> Draws(order[LastEdge(order, u, v).value], u, v)
    ensures LastEdge(order, u, v).Some? ==> forall j :: LastEdge(order, u, v).value < j < |order| ==> !Draws(order[j], u, v)
    ensures LastEdge(order, u, v).None? ==> forall j :: 0 <= j < |order| ==> !Draws(order[j], u, v)
  {
    if order != [] && !Draws(order[|order| - 1], u, v) {
      var init := order[..|order| - 1];
      LastEdgeSpec(init, u, v);
      assert LastEdge(order, u, v) == LastEdge(init, u, v);
      assert forall j :: 0 <= j < |init| ==> init[j] == order[j];
    }
  }

  lemma MentionsSnoc(order: seq<Triple>, n: string)
    requires order != []
    ensures Mentions(order, n) <==> Mentions(order[..|order| - 1], n) || NamesNode(order[|order| - 1], n)
  {
    var init := order[..|order| - 1];
    assert forall j :: 0 <= j < |init| ==> init[j] == order[j];
    if Mentions(order, n) && !NamesNode(order[|order| - 1], n) {
      var i :| 0 <= i < |order| && NamesNode(order[i], n);
      assert NamesNode(init[i], n);
    }
    if NamesNode(order[|order| - 1], n) {
      assert NamesNode(order[|order| - 1], n);
    }
  }

  /** The static view has one node per distinct local name mentioned by a
    * non-type triple, each once. */
  lemma {:induction false} StaticGraphNodes(order: seq<Triple>)
    ensures forall i, j :: 0 <= i < j < |StaticGraph(order).nodes| ==> StaticGraph(order).nodes[i] != StaticGraph(order).nodes[j]
    ensures forall n :: n in StaticGraph(order).nodes <==> Mentions(order, n)
  {
    if order != [] {
      StaticGraphNodes(order[..|order| - 1]);
      forall n ensures n in StaticGraph(order).nodes <==> Mentions(order, n) {
        MentionsSnoc(order, n);
      }
    }
  }

  /** There is an edge (u, v) exactly when a non-type triple runs from u to
    * v, and its `relacion` is the predicate of the last such triple. */
  lemma {:induction false} StaticGraphEdges(order: seq<Triple>, u: string, v: string)
    ensures (u, v) in StaticGraph(order).edges <==> LastEdge(order, u, v).Some?
    ensures (u, v) in StaticGraph(order).edges ==>
      StaticGraph(order).edges[(u, v)] == PredicateName(order[LastEdge(order, u, v).value])
  {
    if order != [] {
      var init := order[..|order| - 1];
      StaticGraphEdges(init, u, v);
      if !Draws(order[|order| - 1], u, v) {
        assert LastEdge(order, u, v) == LastEdge(init, u, v);
        if LastEdge(init, u, v).Some? {
          assert order[LastEdge(init, u, v).value] == init[LastEdge(init, u, v).value];
        }
      }
    }
  }

  function WithoutTypes(order: seq<Triple>): (r: seq<Triple>)
    ensures forall t :: t in r <==> t in order && t.p != RdfType
  {
    if order == [] then []
    else
      var init := order[..|order| - 1];
      assert forall t :: t in order <==> t in init || t == order[|order| - 1];
      if order[|order| - 1].p == RdfType then WithoutTypes(init) else WithoutTypes(init) + [order[|order| - 1]]
  }

  /** The filter keeps the order of the remaining triples and each one once. */
  lemma {:induction false} WithoutTypesExact(order: seq<Triple>)
    ensures Subsequence(WithoutTypes(order), order)
    ensures forall t :: multiset(WithoutTypes(order))[t] == if t.p != RdfType then multiset(order)[t] else 0
  {
    if order != [] {
      var init, last := order[..|order| - 1], order[|order| - 1];
      WithoutTypesExact(init);
      assert order == init + [last];
      SubsequenceAppend(WithoutTypes(init), init, last);
    }
  }

  /** rdf:type triples contribute no nodes and no edges. */
  lemma {:induction false} StaticGraphIgnoresTypes(order: seq<Triple>)
    ensures StaticGraph(order) == StaticGraph(WithoutTypes(order))
  {
    if order != [] {
      var init := order[..|order| - 1];
      StaticGraphIgnoresTypes(init);
      var w := WithoutTypes(init) + [order[|order| - 1]];
      assert w[..|w| - 1] == WithoutTypes(init);
    }
  }

  datatype Style = Style(colour: string, size: int)

  /** The colour and size bucket of a node of the static view. */
  function StaticStyle(n: string): (st: Style)
    ensures st == Style("#a2d2ff", 3000) <==> n in UniversityNames
    ensures st == Style("#ffb5a7", 2500) <==> n !in UniversityNames && n in CityNames
    ensures st == Style("#e9ecef", 1200) <==> n !in UniversityNames && n !in CityNames
  {
    if n in UniversityNames then Style("#a2d2ff", 3000)
    else if n in CityNames then Style("#ffb5a7", 2500)
    else Style("#e9ecef", 1200)
  }

  /** The two loops of the static view: build the DiGraph, then one colour and one size per node. */
  method VisualizacionEstatica(order: seq<Triple>) returns (g: NxGraph, colores: seq<string>, tamanos: seq<int>)
    ensures g == StaticGraph(order)
    ensures |colores| == |g.nodes| && |tamanos| == |g.nodes|
    ensures forall i :: 0 <= i < |g.nodes| ==> Style(colores[i], tamanos[i]) == StaticStyle(g.nodes[i])
  {
    g := NxGraph([], map[]);
    for i := 0 to |order|
      invariant g == StaticGraph(order[..i])
    {
      assert order[..i + 1][..i] == order[..i];
      var t := order[i];
      if t.p == RdfType {
        continue;
      }
      var sujeto := LocalName(Str(t.s));
      var predicado := LocalName(Str(t.p));
      var objeto := if '#' in Str(t.o) then LocalName(Str(t.o)) else Str(t.o);
      g := AddNxEdge(g, sujeto, objeto, predicado);
    }
    assert order[..|order|] == order;
    colores, tamanos := [], [];
    for k := 0 to |g.nodes|
      invariant |colores| == k && |tamanos| == k
      invariant forall i :: 0 <= i < k ==> Style(colores[i], tamanos[i]) == StaticStyle(g.nodes[i])
    {
      var nodo := g.nodes[k];
      if nodo in UniversityNames {
        colores, tamanos := colores + ["#a2d2ff"], tamanos + [3000];
      } else if nodo in CityNames {
        colores, tamanos := colores + ["#ffb5a7"], tamanos + [2500];
      } else {
        colores, tamanos := colores + ["#e9ecef"], tamanos + [1200];
      }
    }
  }

  // ---------------------------------------------------------------------------
  // visualizacion_interactiva_html

  datatype PyvisNode = PyvisNode(id: string, caption: string, style: Style)
  datatype PyvisEdge = PyvisEdge(source: string, dest: string, title: string)
  datatype PyvisNet = PyvisNet(nodes: seq<PyvisNode>, edges: seq<PyvisEdge>)

  const SubjectStyle := Style("#4ea8de", 25)

  /** The style an object node is added with. */
  function ObjectStyle(n: string): (st: Style)
    ensures st == Style("#f15bb5", 20) <==> n in CityNames
    ensures st == Style("#e5e5e5", 15) <==> n !in CityNames
  {
    if n in CityNames then Style("#f15bb5", 20) else Style("#e5e5e5", 15)
  }

  predicate HasNode(net: PyvisNet, id: string) {
    exists k :: 0 <= k < |net.nodes| && net.nodes[k].id == id
  }

  /** add_node ignores an id that is already present. */
  function AddPyvisNode(net: PyvisNet, id: string, st: Style): PyvisNet {
    if HasNode(net, id) then net else net.(nodes := net.nodes + [PyvisNode(id, id, st)])
  }

  /** add_edge on a directed network appends every edge. */
  function AddPyvisEdge(net: PyvisNet, u: string, v: string, title: string): PyvisNet {
    net.(edges := net.edges + [PyvisEdge(u, v, title)])
  }

  function InteractiveNet(order: seq<Triple>): PyvisNet {
    if order == [] then PyvisNet([], [])
    else
      var net := InteractiveNet(order[..|order| - 1]);
      var t := order[|order| - 1];
      if t.p == RdfType then net
      else
        var s, o := SubjectName(t), ObjectNameOf(t);
        AddPyvisEdge(AddPyvisNode(AddPyvisNode(net, s, SubjectStyle), o, ObjectStyle(o)), s, o, PredicateName(t))
  }

  method VisualizacionInteractiva(order: seq<Triple>) returns (net: PyvisNet)
    ensures net == InteractiveNet(order)
  {
    net := PyvisNet([], []);
    for i := 0 to |order|
      invariant net == InteractiveNet(order[..i])
    {
      assert order[..i + 1][..i] == order[..i];
      var t := order[i];
      if t.p == RdfType {
        continue;
      }
      var sujeto := LocalName(Str(t.s));
      var predicado := LocalName(Str(t.p));
      var objeto := if '#' in Str(t.o) then LocalName(Str(t.o)) else Str(t.o);
      net := AddPyvisNode(net, sujeto, SubjectStyle);
      if objeto in CityNames {
        net := AddPyvisNode(net, objeto, Style("#f15bb5", 20));
      } else {
        net := AddPyvisNode(net, objeto, Style("#e5e5e5", 15));
      }
      net := AddPyvisEdge(net, sujeto, objeto, predicado);
    }
    assert order[..|order|] == order;
  }

  /** Node ids are unique, and every non-type triple adds one edge, in order. */
  lemma {:induction false} InteractiveNetShape(order: seq<Triple>)
    ensures forall i, j :: 0 <= i < j < |InteractiveNet(order).nodes| ==> InteractiveNet(order).nodes[i].id != InteractiveNet(order).nodes[j].id
    ensures |InteractiveNet(order).edges| == |WithoutTypes(order)|
    ensures forall k :: 0 <= k < |WithoutTypes(order)| ==>
      InteractiveNet(order).edges[k] ==
        PyvisEdge(SubjectName(WithoutTypes(order)[k]), ObjectNameOf(WithoutTypes(order)[k]), PredicateName(WithoutTypes(order)[k]))
  {
    if order != [] {
      InteractiveNetShape(order[..|order| - 1]);
    }
  }

  /** No non-type triple has `n` as its subject. */
  predicate NeverSubject(order: seq<Triple>, n: string) {
    forall i :: 0 <= i < |order| && order[i].p != RdfType ==> SubjectName(order[i]) != n
  }

  /** A name that is never the subject of a non-type triple keeps the object
    * style: pink with size 20 if it is a city, grey with size 15 otherwise. */
  lemma {:induction false} ObjectOnlyNodeStyle(order: seq<Triple>, n: string)
    requires NeverSubject(order, n)
    ensures forall k :: 0 <= k < |InteractiveNet(order).nodes| && InteractiveNet(order).nodes[k].id == n ==>
      InteractiveNet(order).nodes[k].style == ObjectStyle(n)
  {
    if order != [] {
      var init := order[..|order| - 1];
      assert forall i :: 0 <= i < |init| ==> init[i] == order[i];
      ObjectOnlyNodeStyle(init, n);
    }
  }

  /** In a graph built from a university table whose names hold no '#', the
    * subject of a non-type triple is named after a university. */
  lemma SubjectIsUniversity(unis: seq<University>, t: Triple) returns (j: nat)
    requires t in TriplesOf(unis) && t.p != RdfType
    requires forall i :: 0 <= i < |unis| ==> '#' !in unis[i].name
    ensures j < |unis| && SubjectName(t) == unis[j].name
  {
    TriplesOfSubjects(unis);
    var local := LocalOfEx(t.s);
    assert local in Names(unis);
    NamesAt(unis);
    j :| 0 <= j < |unis| && unis[j].name == local;
    LocalNameOfEx(local);
  }

  lemma SubjectNotOther(unis: seq<University>, t: Triple, n: string)
    requires t in TriplesOf(unis) && t.p != RdfType
    requires forall i :: 0 <= i < |unis| ==> '#' !in unis[i].name && unis[i].name != n
    ensures SubjectName(t) != n
  {
    var j := SubjectIsUniversity(unis, t);
  }

  /** With no '#' in any university name, a name that is not a university's
    * is the subject of no non-type triple of the table's graph. */
  lemma TableSubjects(unis: seq<University>, n: string)
    requires forall i :: 0 <= i < |unis| ==> '#' !in unis[i].name && unis[i].name != n
    ensures forall t :: t in TriplesOf(unis) && t.p != RdfType ==> SubjectName(t) != n
  {
    forall t | t in TriplesOf(unis) && t.p != RdfType ensures SubjectName(t) != n {
      SubjectNotOther(unis, t, n);
    }
  }

  /** In the interactive view of the university graph, whatever the
    * enumeration order, each city is a pink node of size 20 and every other
    * non-university name a grey node of size 15. */
  lemma CitiesPinkInteractive(order: seq<Triple>, n: string)
    requires forall t :: t in order ==> t in TriplesOf(DatosUnis)
    requires n !in UniversityNames
    ensures forall k :: 0 <= k < |InteractiveNet(order).nodes| && InteractiveNet(order).nodes[k].id == n ==>
      && (n in CityNames ==> InteractiveNet(order).nodes[k].style == Style("#f15bb5", 20))
      && (n !in CityNames ==> InteractiveNet(order).nodes[k].style == Style("#e5e5e5", 15))
  {
    assert forall i :: 0 <= i < |DatosUnis| ==> DatosUnis[i].name == UniversityNames[i];
    assert forall i :: 0 <= i < |UniversityNames| ==> '#' !in UniversityNames[i];
    TableSubjects(DatosUnis, n);
    forall i | 0 <= i < |order| && order[i].p != RdfType ensures SubjectName(order[i]) != n {
      assert order[i] in order;
    }
    ObjectOnlyNodeStyle(order, n);
  }
}
