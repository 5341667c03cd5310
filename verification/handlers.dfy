/** The five request handlers over the in-memory product list. Each one is a
    single sequential step: it takes the list before the request and the
    request body, and returns the list after it together with the answer. */
module Handlers {
  import opened Wrappers
  import opened Catalog

  /** GET listar: the whole list when it has something in it, otherwise a
      404 without a message. Never changes the list. */
  function Listar(s: seq<Produto>): (r: Response)
    ensures r.state == s
    ensures r.outcome.Ok? <==> |s| > 0
    ensures r.outcome.Ok? ==> r.outcome.items == s
    ensures !r.outcome.Ok? ==> r.outcome == NotFound(None)
  {
    if |s| > 0 then Response(s, Ok(s)) else Response(s, NotFound(None))
  }

  /** POST cadastrar: appends the body as given, duplicates included, and
      answers 201 with it. */
  function Cadastrar(s: seq<Produto>, produto: Produto): (r: Response)
    ensures |r.state| == |s| + 1
    ensures r.state[..|s|] == s
    ensures r.state[|s|] == produto
    ensures r.outcome == Created(produto)
  {
    Response(s + [produto], Created(produto))
  }

  /** DELETE remove: deletes the first product whose name equals the body's
      name and answers 202 with it; 404 with a message when no name matches. */
  function Remove(s: seq<Produto>, produto: Produto): (r: Response)
    ensures r.outcome.Accepted? <==> HasName(s, produto.nome)
    ensures forall i :: IsFirstMatch(s, produto.nome, i) ==>
              r.state == s[..i] + s[i + 1..] && r.outcome == Accepted(s[i])
    ensures !HasName(s, produto.nome) ==>
              r.state == s && r.outcome == NotFound(Some(NotFoundMessage))
  {
    match FirstIndexByName(s, produto.nome)
    case Some(i) => Response(s[..i] + s[i + 1..], Accepted(s[i]))
    case None => Response(s, NotFound(Some(NotFoundMessage)))
  }

  /** GET buscar: answers 200 with the first product whose name equals the
      body's name, 404 with a message when none does. Never changes the list. */
  function Buscar(s: seq<Produto>, produto: Produto): (r: Response)
    ensures r.state == s
    ensures r.outcome.OkOne? <==> HasName(s, produto.nome)
    ensures forall i :: IsFirstMatch(s, produto.nome, i) ==> r.outcome == OkOne(s[i])
    ensures !HasName(s, produto.nome) ==> r.outcome == NotFound(Some(NotFoundMessage))
  {
    match FirstIndexByName(s, produto.nome)
    case Some(i) => Response(s, OkOne(s[i]))
    case None => Response(s, NotFound(Some(NotFoundMessage)))
  }

  /** PUT alterar: applies the sparse update of the body to the first product
      whose name equals the body's name, in place, and answers 200 with the
      updated product; 404 with a message when no name matches. */
  function Alterar(s: seq<Produto>, produto: Produto): (r: Response)
    ensures |r.state| == |s|
    ensures r.outcome.OkOne? <==> HasName(s, produto.nome)
    ensures forall i :: IsFirstMatch(s, produto.nome, i) ==>
              && r.state[i].id == s[i].id
              && r.state[i].nome == s[i].nome
              && r.state[i].criadoEm == s[i].criadoEm
              && (produto.valor != 0.0 ==> r.state[i].valor == produto.valor)
              && (produto.valor == 0.0 ==> r.state[i].valor == s[i].valor)
              && (produto.quantidade != 0 ==> r.state[i].quantidade == produto.quantidade)
              && (produto.quantidade == 0 ==> r.state[i].quantidade == s[i].quantidade)
              && (forall j :: 0 <= j < |s| && j != i ==> r.state[j] == s[j])
              && r.outcome == OkOne(r.state[i])
    ensures !HasName(s, produto.nome) ==>
              r.state == s && r.outcome == NotFound(Some(NotFoundMessage))
  {
    match FirstIndexByName(s, produto.nome)
    case Some(i) =>
      var updated := ApplyUpdate(s[i], produto);
      Response(s[i := updated], OkOne(updated))
    case None => Response(s, NotFound(Some(NotFoundMessage)))
  }
}
