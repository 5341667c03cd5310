/** The data model of the product catalogue: the product record, the outcome a
    handler answers with, and the first-match lookup by name that every
    selector-based handler shares. */
module Catalog {
  import opened Wrappers

  /** A C# `int`: the JSON binder only produces values in this range. */
  newtype Int32 = x: int | -0x8000_0000 <= x < 0x8000_0000

  /** One product. `id` and `nome` are nullable strings; `valor` is a `double`
      that is only ever compared with zero and copied, so a `real` suffices;
      `criadoEm` is the creation timestamp, kept as an opaque tick count. */
  datatype Produto = Produto(
    id: Option<string>,
    nome: Option<string>,
    valor: real,
    quantidade: Int32,
    criadoEm: int)

  /** The HTTP result a handler returns, without the transport details:
      200 with the whole list, 200 with one product, 201, 202, or 404 with an
      optional message. */
  datatype Outcome =
    | Ok(items: seq<Produto>)
    | OkOne(item: Produto)
    | Created(item: Produto)
    | Accepted(item: Produto)
    | NotFound(message: Option<string>)

  /** The message the selector-based handlers attach to a 404. */
  const NotFoundMessage: string := "Produto não encontrado."

  /** The state after a request together with the answer to it. */
  datatype Response = Response(state: seq<Produto>, outcome: Outcome)

  /** The list starts out empty: every sample entry of its initialiser is
      commented out. */
  function Initial(): (s: seq<Produto>)
    ensures |s| == 0
  {
    []
  }

  /** Some element carries the name `n`. Names compare like C# strings with
      `==`: two nulls are equal, null differs from every string. */
  ghost predicate HasName(s: seq<Produto>, n: Option<string>) {
    exists j :: 0 <= j < |s| && s[j].nome == n
  }

  /** `i` is the position `FirstOrDefault(p => p.Nome == n)` stops at: the
      element there has the name and no earlier one does. */
  ghost predicate IsFirstMatch(s: seq<Produto>, n: Option<string>, i: int) {
    && 0 <= i < |s|
    && s[i].nome == n
    && forall j :: 0 <= j < i ==> s[j].nome != n
  }

  /** The index of the first element named `n`, or `None` when there is none. */
  function FirstIndexByName(s: seq<Produto>, n: Option<string>): (r: Option<nat>)
    ensures r.Some? <==> HasName(s, n)
    ensures r.Some? ==> IsFirstMatch(s, n, r.value)
  {
    if |s| == 0 then None
    else if s[0].nome == n then Some(0)
    else
      match FirstIndexByName(s[1..], n)
      case None =>
        assert forall j :: 1 <= j < |s| ==> s[j] == s[1..][j - 1];
        None
      case Some(i) =>
        assert forall j :: 1 <= j <= i + 1 ==> s[j] == s[1..][j - 1];
        Some(i + 1)
  }

  /** The number of elements named `n`. The list does not keep names unique. */
  function CountName(s: seq<Produto>, n: Option<string>): (c: nat)
    ensures c <= |s|
    ensures c == 0 <==> !HasName(s, n)
  {
    if |s| == 0 then 0
    else
      assert forall j :: 1 <= j < |s| ==> s[j] == s[1..][j - 1];
      (if s[0].nome == n then 1 else 0) + CountName(s[1..], n)
  }

  /** The sparse update `alterar` performs on the product it found: `valor`
      and `quantidade` are taken from the request only when non-zero, so zero
      means "not supplied"; identity, name and timestamp are never touched. */
  function ApplyUpdate(target: Produto, request: Produto): (u: Produto)
    ensures u.id == target.id && u.nome == target.nome && u.criadoEm == target.criadoEm
    ensures request.valor != 0.0 ==> u.valor == request.valor
    ensures request.valor == 0.0 ==> u.valor == target.valor
    ensures request.quantidade != 0 ==> u.quantidade == request.quantidade
    ensures request.quantidade == 0 ==> u.quantidade == target.quantidade
  {
    var withValor := if request.valor != 0.0 then target.(valor := request.valor) else target;
    if request.quantidade != 0 then withValor.(quantidade := request.quantidade) else withValor
  }
}
