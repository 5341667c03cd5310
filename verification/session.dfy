/** A run of the service: requests handled one after another against the
    shared product list, starting from the empty list it is created with. */
module Session {
  import opened Wrappers
  import opened Catalog
  import opened Handlers

  /** One inbound request, routed to its handler. */
  datatype Request =
    | ListarRequest
    | CadastrarRequest(produto: Produto)
    | RemoveRequest(produto: Produto)
    | BuscarRequest(produto: Produto)
    | AlterarRequest(produto: Produto)

  /** Dispatches one request to its handler. */
  function Step(s: seq<Produto>, request: Request): (r: Response)
    ensures !request.CadastrarRequest? ==> |r.state| <= |s|
    ensures request.CadastrarRequest? ==> |r.state| == |s| + 1
  {
    match request
    case ListarRequest => Listar(s)
    case CadastrarRequest(p) => Cadastrar(s, p)
    case RemoveRequest(p) => Remove(s, p)
    case BuscarRequest(p) => Buscar(s, p)
    case AlterarRequest(p) => Alterar(s, p)
  }

  /** The list after a run, and the answer given to each request in order. */
  datatype Trace = Trace(state: seq<Produto>, outcomes: seq<Outcome>)

  /** The bodies of the `cadastrar` requests of a run, in order. */
  function Registered(requests: seq<Request>): (ps: seq<Produto>)
    ensures |ps| <= |requests|
  {
    if |requests| == 0 then []
    else if requests[0].CadastrarRequest? then [requests[0].produto] + Registered(requests[1..])
    else Registered(requests[1..])
  }

  /** Handles the requests in order, each against the list left by the one
      before. The list never holds more than it held at the start plus what
      was added. */
  function Run(s: seq<Produto>, requests: seq<Request>): (t: Trace)
    ensures |t.outcomes| == |requests|
    ensures |t.state| <= |s| + |Registered(requests)|
    decreases |requests|
  {
    if |requests| == 0 then Trace(s, [])
    else
      var r := Step(s, requests[0]);
      var rest := Run(r.state, requests[1..]);
      Trace(rest.state, [r.outcome] + rest.outcomes)
  }

  /** The fields no handler ever writes: `id`, `nome` and `criadoEm`. */
  function Identity(p: Produto): (Option<string>, Option<string>, int) {
    (p.id, p.nome, p.criadoEm)
  }

  function Identities(s: seq<Produto>): set<(Option<string>, Option<string>, int)> {
    set j | 0 <= j < |s| :: Identity(s[j])
  }

  /** One request introduces no identity other than that of the product it
      registers. */
  lemma StepIdentities(s: seq<Produto>, request: Request)
    ensures Identities(Step(s, request).state) <= Identities(s) + Identities(Registered([request]))
  {
    var t := Step(s, request).state;
    assert Registered([request]) == if request.CadastrarRequest? then [request.produto] else [];
    forall x | x in Identities(t)
      ensures x in Identities(s) + Identities(Registered([request]))
    {
      var j :| 0 <= j < |t| && x == Identity(t[j]);
      match request
      case RemoveRequest(p) =>
        var i := FirstIndexByName(s, p.nome);
        if i.Some? {
          if j < i.value {
            assert t[j] == s[j];
          } else {
            assert t[j] == s[j + 1];
          }
        }
      case CadastrarRequest(p) =>
        if j == |s| {
          assert Identity(Registered([request])[0]) == x;
        } else {
          assert t[j] == s[j];
        }
      case AlterarRequest(p) =>
        assert Identity(t[j]) == Identity(s[j]);
      case _ =>
        assert t[j] == s[j];
    }
  }

  /** Over a whole run, every product in the final list carries the identity
      of a product present at the start or registered during the run: no
      handler invents or rewrites an `id`, a `nome` or a `criadoEm`. */
  lemma {:induction false} RunIdentities(s: seq<Produto>, requests: seq<Request>)
    ensures Identities(Run(s, requests).state) <= Identities(s) + Identities(Registered(requests))
    decreases |requests|
  {
    if |requests| > 0 {
      var head := requests[0];
      var mid := Step(s, head).state;
      StepIdentities(s, head);
      RunIdentities(mid, requests[1..]);
      assert requests == [head] + requests[1..];
      RegisteredConcat([head], requests[1..]);
      IdentitiesConcat(Registered([head]), Registered(requests[1..]));
    }
  }

  lemma {:induction false} RegisteredConcat(a: seq<Request>, b: seq<Request>)
    ensures Registered(a + b) == Registered(a) + Registered(b)
  {
    if |a| == 0 {
      assert a + b == b;
    } else {
      assert (a + b)[1..] == a[1..] + b;
      RegisteredConcat(a[1..], b);
    }
  }

  lemma IdentitiesConcat(a: seq<Produto>, b: seq<Produto>)
    ensures Identities(a + b) == Identities(a) + Identities(b)
  {
    var ab := a + b;
    forall x | x in Identities(a) ensures x in Identities(ab) {
      var j :| 0 <= j < |a| && x == Identity(a[j]);
      assert ab[j] == a[j];
    }
    forall x | x in Identities(b) ensures x in Identities(ab) {
      var j :| 0 <= j < |b| && x == Identity(b[j]);
      assert ab[|a| + j] == b[j];
    }
  }

  /** Starting from the empty list, `buscar` finds nothing under a name that
      no `cadastrar` of the run supplied. */
  lemma BuscarNeverCreatedName(requests: seq<Request>, query: Produto)
    requires forall k :: 0 <= k < |Registered(requests)| ==> Registered(requests)[k].nome != query.nome
    ensures Buscar(Run(Initial(), requests).state, query).outcome == NotFound(Some(NotFoundMessage))
  {
    var t := Run(Initial(), requests).state;
    RunIdentities(Initial(), requests);
    var created := Registered(requests);
    assert Identities(Initial()) == {};
    forall j | 0 <= j < |t|
      ensures t[j].nome != query.nome
    {
      assert Identity(t[j]) in Identities(t);
      var k :| 0 <= k < |created| && Identity(t[j]) == Identity(created[k]);
    }
  }

  /** The requests that register `ps` one after another. */
  function CadastrarEach(ps: seq<Produto>): (requests: seq<Request>)
    ensures |requests| == |ps|
    ensures forall k :: 0 <= k < |ps| ==> requests[k] == CadastrarRequest(ps[k])
  {
    if |ps| == 0 then [] else [CadastrarRequest(ps[0])] + CadastrarEach(ps[1..])
  }

  /** Registering `ps` one after another appends them in order, and each
      request is answered with 201 and its own product. */
  lemma {:induction false} RunCadastrarEach(s: seq<Produto>, ps: seq<Produto>)
    ensures Run(s, CadastrarEach(ps)).state == s + ps
    ensures forall k :: 0 <= k < |ps| ==> Run(s, CadastrarEach(ps)).outcomes[k] == Created(ps[k])
    decreases |ps|
  {
    if |ps| > 0 {
      var requests := CadastrarEach(ps);
      assert requests[1..] == CadastrarEach(ps[1..]);
      var next := s + [ps[0]];
      assert Step(s, requests[0]) == Response(next, Created(ps[0]));
      var rest := Run(next, requests[1..]);
      RunCadastrarEach(next, ps[1..]);
      assert Run(s, requests) == Trace(rest.state, [Created(ps[0])] + rest.outcomes);
      assert next + ps[1..] == s + ps;
      forall k | 1 <= k < |ps|
        ensures Run(s, requests).outcomes[k] == Created(ps[k])
      {
        assert Run(s, requests).outcomes[k] == rest.outcomes[k - 1];
        assert ps[1..][k - 1] == ps[k];
      }
    }
  }

  /** After registering N products on a fresh list, `listar` answers with
      exactly those N products in order, or 404 when N is zero. Names need not
      be distinct. */
  lemma ListarAfterCadastrarEach(ps: seq<Produto>)
    ensures |ps| > 0 ==> Listar(Run(Initial(), CadastrarEach(ps)).state).outcome == Ok(ps)
    ensures |ps| == 0 ==> Listar(Run(Initial(), CadastrarEach(ps)).state).outcome == NotFound(None)
  {
    RunCadastrarEach(Initial(), ps);
    assert Initial() + ps == ps;
  }
}
