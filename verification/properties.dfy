/** Properties that relate several handlers, or a handler to an independent
    characterisation of what it should do: counting, permutation, round trips
    and idempotence. */
module Properties {
  import opened Wrappers
  import opened Catalog
  import opened Handlers

  /** Counting names distributes over concatenation. */
  lemma {:induction false} CountNameConcat(a: seq<Produto>, b: seq<Produto>, n: Option<string>)
    ensures CountName(a + b, n) == CountName(a, n) + CountName(b, n)
  {
    if |a| == 0 {
      assert a + b == b;
    } else {
      assert (a + b)[1..] == a[1..] + b;
      CountNameConcat(a[1..], b, n);
    }
  }

  /** A successful `remove` takes away exactly one product with the requested
      name and leaves the count of every other name as it was. */
  lemma RemoveDecrementsCount(s: seq<Produto>, produto: Produto, n: Option<string>)
    requires HasName(s, produto.nome)
    ensures CountName(Remove(s, produto).state, produto.nome) == CountName(s, produto.nome) - 1
    ensures n != produto.nome ==> CountName(Remove(s, produto).state, n) == CountName(s, n)
  {
    var i := FirstIndexByName(s, produto.nome).value;
    assert s == s[..i] + [s[i]] + s[i + 1..];
    CountNameConcat(s[..i] + [s[i]], s[i + 1..], n);
    CountNameConcat(s[..i], [s[i]], n);
    CountNameConcat(s[..i], s[i + 1..], n);
    CountNameConcat(s[..i] + [s[i]], s[i + 1..], produto.nome);
    CountNameConcat(s[..i], [s[i]], produto.nome);
    CountNameConcat(s[..i], s[i + 1..], produto.nome);
  }

  /** A successful `remove` is a permutation-preserving deletion: the products
      left plus the one answered are exactly the products before. */
  lemma RemoveIsDeletion(s: seq<Produto>, produto: Produto)
    requires HasName(s, produto.nome)
    ensures multiset(Remove(s, produto).state) + multiset{Remove(s, produto).outcome.item} == multiset(s)
  {
    var i := FirstIndexByName(s, produto.nome).value;
    assert s == s[..i] + [s[i]] + s[i + 1..];
  }

  /** `remove` followed by `buscar` with the same name finds nothing exactly
      when at most one product carried that name; with duplicates, the next
      one is still there. */
  lemma RemoveThenBuscar(s: seq<Produto>, produto: Produto)
    ensures Buscar(Remove(s, produto).state, produto).outcome.NotFound?
            <==> CountName(s, produto.nome) <= 1
  {
    if HasName(s, produto.nome) {
      RemoveDecrementsCount(s, produto, produto.nome);
    }
  }

  /** With a repeated name, `buscar` after `remove` answers with the next
      product of that name: the one at `k`, the second occurrence after the
      first match at `i`. */
  lemma RemoveThenBuscarWithDuplicate(s: seq<Produto>, produto: Produto, i: int, k: int)
    requires IsFirstMatch(s, produto.nome, i)
    requires i < k < |s| && s[k].nome == produto.nome
    requires forall j :: i < j < k ==> s[j].nome != produto.nome
    ensures Buscar(Remove(s, produto).state, produto).outcome == OkOne(s[k])
  {
    var t := Remove(s, produto).state;
    assert t == s[..i] + s[i + 1..];
    forall j | 0 <= j < k - 1
      ensures t[j].nome != produto.nome
    {
      if j < i {
        assert t[j] == s[j];
      } else {
        assert t[j] == s[j + 1];
      }
    }
    assert t[k - 1] == s[k];
    assert IsFirstMatch(t, produto.nome, k - 1);
  }

  /** `cadastrar` followed by `buscar` on the new product's name answers with
      the new product only when no earlier product had that name; otherwise it
      answers with the earlier one, as it did before the insertion. */
  lemma CadastrarThenBuscar(s: seq<Produto>, produto: Produto)
    ensures !HasName(s, produto.nome) ==>
              Buscar(Cadastrar(s, produto).state, produto).outcome == OkOne(produto)
    ensures HasName(s, produto.nome) ==>
              Buscar(Cadastrar(s, produto).state, produto).outcome == Buscar(s, produto).outcome
  {
    var t := s + [produto];
    if HasName(s, produto.nome) {
      var i := FirstIndexByName(s, produto.nome).value;
      assert IsFirstMatch(t, produto.nome, i);
    } else {
      assert IsFirstMatch(t, produto.nome, |s|);
    }
  }

  /** `remove` undoes `cadastrar` when the name was not in use before. */
  lemma CadastrarThenRemove(s: seq<Produto>, produto: Produto)
    requires !HasName(s, produto.nome)
    ensures Remove(Cadastrar(s, produto).state, produto) == Response(s, Accepted(produto))
  {
    var t := s + [produto];
    assert IsFirstMatch(t, produto.nome, |s|);
    assert t[..|s|] + t[|s| + 1..] == s;
  }

  /** `alterar` never changes the name at any position. */
  lemma AlterarKeepsNames(s: seq<Produto>, produto: Produto)
    ensures forall j :: 0 <= j < |s| ==> Alterar(s, produto).state[j].nome == s[j].nome
  {
  }

  /** Repeating the same `alterar` changes nothing more: the sparse update is
      idempotent, in the list and in the answer. */
  lemma AlterarIdempotent(s: seq<Produto>, produto: Produto)
    ensures Alterar(Alterar(s, produto).state, produto) == Alterar(s, produto)
  {
    var once := Alterar(s, produto);
    AlterarKeepsNames(s, produto);
    if HasName(s, produto.nome) {
      var i := FirstIndexByName(s, produto.nome).value;
      assert IsFirstMatch(once.state, produto.nome, i);
      var twice := Alterar(once.state, produto);
      assert twice.state[i] == once.state[i];
      assert twice.state == once.state;
    }
  }

  /** An `alterar` whose `valor` and `quantidade` are both zero supplies
      nothing: the list stays as it was and the answer is what `buscar` gives. */
  lemma AlterarWithZerosIsBuscar(s: seq<Produto>, produto: Produto)
    requires produto.valor == 0.0 && produto.quantidade == 0
    ensures Alterar(s, produto) == Buscar(s, produto)
  {
    if HasName(s, produto.nome) {
      var i := FirstIndexByName(s, produto.nome).value;
      assert Alterar(s, produto).state == s;
    }
  }

  /** After `alterar`, `buscar` on the same name answers with the updated
      product. */
  lemma AlterarThenBuscar(s: seq<Produto>, produto: Produto)
    ensures Buscar(Alterar(s, produto).state, produto).outcome == Alterar(s, produto).outcome
  {
    AlterarKeepsNames(s, produto);
    if HasName(s, produto.nome) {
      var i := FirstIndexByName(s, produto.nome).value;
      assert IsFirstMatch(Alterar(s, produto).state, produto.nome, i);
    }
  }
}
