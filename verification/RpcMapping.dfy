/**
 Registering the methods of an RPC service under paths, from a text such as
 "/v1/account/add > add,/v1/account/del > del".
 */
module RpcMapping {
  import opened Text

  datatype MethodDescriptor = MethodDescriptor(service: nat, name: string, fullName: string)

  type MethodMap = map<string, MethodDescriptor>

  datatype Added = Added(ok: bool, methods: MethodMap)

  datatype Pair = Pair(path: string, name: string)

  /** Adding the entries in turn, up to the first that is malformed or names no method of the service. */
  function AddAll(service: nat, known: map<string, string>, entries: seq<string>, m: MethodMap): Added {
    if entries == [] then Added(true, m)
    else
      var parts := Split(entries[0], '>');
      if |parts| != 2 || Trim(parts[1]) !in known then Added(false, m)
      else
        var md := MethodDescriptor(service, Trim(parts[1]), known[Trim(parts[1])]);
        AddAll(service, known, entries[1..], m[Trim(parts[0]) := md])
  }

  class Server {
    var methods: MethodMap   // method_map_

    constructor ()
      ensures methods == map[]
    {
      methods := map[];
    }

    /** `known` gives the full name of each method of the service. */
    method AddRpcService(service: nat, known: map<string, string>, mappings: string) returns (ok: bool)
      modifies this
      ensures Added(ok, methods) == AddAll(service, known, Split(mappings, ','), old(methods))
    {
      var entries := SplitLoop(mappings, ',');
      var i := 0;
      while i < |entries|
        invariant 0 <= i <= |entries|
        invariant AddAll(service, known, entries[i..], methods) == AddAll(service, known, entries, old(methods))
      {
        var parts := SplitLoop(entries[i], '>');
        if |parts| != 2 {
          return false;
        }
        var path, name := Trim(parts[0]), Trim(parts[1]);
        if name !in known {
          return false;
        }
        methods := methods[path := MethodDescriptor(service, name, known[name])];
        i := i + 1;
      }
      ok := true;
    }
  }

  // ----- which entries are read, and how

  /** The entry is `path > name`, with nothing to split further; one `>` may follow, but no more. */
  ghost predicate Divides(e: string, path: string, name: string) {
    && '>' !in path && '>' !in name
    && ((name != [] && e == path + ['>'] + name) || e == path + ['>'] + name + ['>'])
  }

  /** An entry splits in two exactly in this way. */
  lemma DividesExactly(e: string, path: string, name: string)
    ensures Split(e, '>') == [path, name] <==> Divides(e, path, name)
  {
    if Split(e, '>') == [path, name] {
      SplitJoin(e, '>');
      JoinTwo(path, name);
      assert FreeOf([path, name], '>') && [path, name][0] == path && [path, name][1] == name;
    }
    if Divides(e, path, name) {
      DividedSplits(e, path, name);
    }
  }

  lemma JoinTwo(a: string, b: string)
    ensures Join([a, b], '>') == a + ['>'] + b
  {
    JoinCons(a, [b], '>');
    JoinOne(b, '>');
    assert [a, b] == [a] + [b];
  }

  lemma DividedSplits(e: string, path: string, name: string)
    requires Divides(e, path, name)
    ensures Split(e, '>') == [path, name]
  {
    PiecesAfter(path, '>', name);
    PiecesAfter(path, '>', name + ['>']);
    PiecesAfter(name, '>', []);
    assert path + ['>'] + (name + ['>']) == path + ['>'] + name + ['>'];
    assert name + ['>'] == name + ['>'] + [];
  }

  /** Reading the entry gives the pair. */
  ghost predicate Reads(known: map<string, string>, e: string, p: Pair) {
    p.name in known && exists path, name :: Divides(e, path, name) && p == Pair(Trim(path), Trim(name))
  }

  ghost predicate Readable(known: map<string, string>, e: string) {
    exists p :: Reads(known, e, p)
  }

  lemma ReadsAsSplit(known: map<string, string>, e: string)
    ensures Readable(known, e) <==> |Split(e, '>')| == 2 && Trim(Split(e, '>')[1]) in known
    ensures forall p | Reads(known, e, p) :: p == Pair(Trim(Split(e, '>')[0]), Trim(Split(e, '>')[1]))
  {
    var parts := Split(e, '>');
    if |parts| == 2 {
      assert parts == [parts[0], parts[1]];
      DividesExactly(e, parts[0], parts[1]);
      if Trim(parts[1]) in known {
        assert Reads(known, e, Pair(Trim(parts[0]), Trim(parts[1])));
      }
    }
    forall p | Reads(known, e, p) ensures |parts| == 2 && p == Pair(Trim(parts[0]), Trim(parts[1])) {
      var path, name :| Divides(e, path, name) && p == Pair(Trim(path), Trim(name));
      DividesExactly(e, path, name);
    }
  }

  /** The pairs that the entries give are put in the map in order, up to the first entry that gives none, which makes the
      whole reading fail. */
  lemma {:induction false} EntriesRead(service: nat, known: map<string, string>, entries: seq<string>, ps: seq<Pair>, m: MethodMap)
    requires |ps| <= |entries| && forall i | 0 <= i < |ps| :: Reads(known, entries[i], ps[i])
    requires |ps| < |entries| ==> !Readable(known, entries[|ps|])
    ensures forall p | p in ps :: p.name in known
    ensures AddAll(service, known, entries, m) == Added(|ps| == |entries|, PutAll(service, known, ps, m))
    decreases |ps|
  {
    hide Split, Trim, Divides;
    forall p | p in ps ensures p.name in known {
      var i :| 0 <= i < |ps| && ps[i] == p;
      assert Reads(known, entries[i], ps[i]);
    }
    if entries != [] {
      ReadsAsSplit(known, entries[0]);
      if ps != [] {
        assert Reads(known, entries[0], ps[0]);
        EntriesRead(service, known, entries[1..], ps[1..], m[ps[0].path := MethodDescriptor(service, ps[0].name, known[ps[0].name])]);
      }
    }
  }

  /** Every list of entries gives such pairs. */
  lemma {:induction false} SomeReading(known: map<string, string>, entries: seq<string>) returns (ps: seq<Pair>)
    ensures |ps| <= |entries| && forall i | 0 <= i < |ps| :: Reads(known, entries[i], ps[i])
    ensures |ps| < |entries| ==> !Readable(known, entries[|ps|])
  {
    hide Reads;
    ps := [];
    if entries != [] && Readable(known, entries[0]) {
      var p :| Reads(known, entries[0], p);
      var rest := SomeReading(known, entries[1..]);
      ps := [p] + rest;
    }
  }

  // ----- printing and reading back

  /** A field that survives: without separators and without blanks at its ends. */
  predicate Clean(f: string) {
    ',' !in f && '>' !in f && Trimmed(f)
  }

  function Entry(p: Pair): string {
    p.path + " " + ">" + " " + p.name
  }

  function Entries(ps: seq<Pair>): seq<string> {
    if ps == [] then [] else [Entry(ps[0])] + Entries(ps[1..])
  }

  function Print(ps: seq<Pair>): string {
    Join(Entries(ps), ',')
  }

  /** The map with the pairs put in order, so that a later pair for a path wins. */
  function PutAll(service: nat, known: map<string, string>, ps: seq<Pair>, m: MethodMap): MethodMap
    requires forall p | p in ps :: p.name in known
  {
    if ps == [] then m
    else PutAll(service, known, ps[1..], m[ps[0].path := MethodDescriptor(service, ps[0].name, known[ps[0].name])])
  }

  /** The pairs before the first whose method the service does not have. */
  function KnownPrefix(known: map<string, string>, ps: seq<Pair>): (k: nat)
    ensures k <= |ps| && (forall p | p in ps[..k] :: p.name in known) && (k < |ps| ==> ps[k].name !in known)
  {
    if ps == [] || ps[0].name !in known then 0
    else
      var k := 1 + KnownPrefix(known, ps[1..]);
      assert ps[..k] == [ps[0]] + ps[1..][..k - 1];
      k
  }

  lemma EntrySplits(p: Pair)
    requires Clean(p.path) && Clean(p.name)
    ensures Split(Entry(p), '>') == [p.path + " ", " " + p.name] && ',' !in Entry(p) && Entry(p) != []
  {
    var a, b := p.path + " ", " " + p.name;
    assert Entry(p) == a + ['>'] + b;
    PiecesAfter(a, '>', b);
    PiecesAfter(b, '>', []);
  }

  lemma EntryTrims(p: Pair)
    requires Clean(p.path) && Clean(p.name)
    ensures Trim(p.path + " ") == p.path && Trim(" " + p.name) == p.name
  {
    TrimBetween("", p.path, " ");
    TrimBetween(" ", p.name, "");
    assert "" + p.path + " " == p.path + " " && " " + p.name + "" == " " + p.name;
  }

  lemma {:induction false} EntriesClean(ps: seq<Pair>)
    requires forall p | p in ps :: Clean(p.path) && Clean(p.name)
    ensures |Entries(ps)| == |ps| && forall i | 0 <= i < |ps| :: Entries(ps)[i] == Entry(ps[i]) && ',' !in Entry(ps[i]) && Entry(ps[i]) != []
  {
    if ps != [] {
      EntrySplits(ps[0]);
      EntriesClean(ps[1..]);
    }
  }

  lemma {:induction false} AddAllEntries(service: nat, known: map<string, string>, ps: seq<Pair>, m: MethodMap)
    requires forall p | p in ps :: Clean(p.path) && Clean(p.name)
    ensures AddAll(service, known, Entries(ps), m)
         == Added(KnownPrefix(known, ps) == |ps|, PutAll(service, known, ps[..KnownPrefix(known, ps)], m))
    decreases |ps|
  {
    if ps != [] {
      EntrySplits(ps[0]);
      EntryTrims(ps[0]);
      if ps[0].name in known {
        var k := KnownPrefix(known, ps);
        assert ps[..k][1..] == ps[1..][..k - 1];
        AddAllEntries(service, known, ps[1..], m[ps[0].path := MethodDescriptor(service, ps[0].name, known[ps[0].name])]);
      }
    }
  }

  /** Clean pairs, printed and read back, are put in the map in order up to the first method the service does not
      have. Reading succeeds exactly if there is a pair at all and every method is known. */
  lemma PrintedPairsReadBack(service: nat, known: map<string, string>, ps: seq<Pair>, m: MethodMap)
    requires forall p | p in ps :: Clean(p.path) && Clean(p.name)
    ensures AddAll(service, known, Split(Print(ps), ','), m)
         == Added(ps != [] && KnownPrefix(known, ps) == |ps|, PutAll(service, known, ps[..KnownPrefix(known, ps)], m))
  {
    if ps == [] {
      assert Split("", '>') == [""];
    } else {
      EntriesClean(ps);
      JoinSplit(Entries(ps), ',');
      AddAllEntries(service, known, ps, m);
    }
  }

  /** The last pair for a path decides what the path maps to; other paths are as before. */
  lemma {:induction false} LaterPairWins(service: nat, known: map<string, string>, ps: seq<Pair>, m: MethodMap, path: string)
    requires forall p | p in ps :: p.name in known
    ensures (exists i :: IsLast(ps, i, path)) ==> path in PutAll(service, known, ps, m)
    ensures forall i | IsLast(ps, i, path) :: PutAll(service, known, ps, m)[path] == MethodDescriptor(service, ps[i].name, known[ps[i].name])
    ensures (forall i | 0 <= i < |ps| :: ps[i].path != path) ==>
              (path in PutAll(service, known, ps, m) <==> path in m) && (path in m ==> PutAll(service, known, ps, m)[path] == m[path])
    decreases |ps|
  {
    if ps != [] {
      var m' := m[ps[0].path := MethodDescriptor(service, ps[0].name, known[ps[0].name])];
      LaterPairWins(service, known, ps[1..], m', path);
      forall i | IsLast(ps, i, path) && i > 0 ensures IsLast(ps[1..], i - 1, path) { }
    }
  }

  ghost predicate IsLast(ps: seq<Pair>, i: int, path: string) {
    0 <= i < |ps| && ps[i].path == path && forall j | i < j < |ps| :: ps[j].path != path
  }
}
