# Product list service — Dafny model

This project models the product-catalogue web API of `API/API/Program.cs`: an
in-memory list of `Produto` records (`API/API/Models/Produto.cs`) and the five
HTTP handlers that act on it — `listar` (list everything), `cadastrar`
(register), `remove` (delete), `buscar` (find) and `alterar` (update).

The list is a `seq<Produto>`. Each handler is a pure function from the list
before a request and the request body to a `Response`: the list after the
request and an abstract `Outcome` standing for the HTTP result (200 with the
list, 200 with one product, 201, 202, or 404 with an optional message).

The selector-based handlers all locate their target the way
`FirstOrDefault(p => p.Nome == produto.Nome)` does: the first product whose
name equals the body's name. Names are `Option<string>`, so a null name in the
body matches the first product whose name is null, just as C# string `==`
does. Names are not unique, because `cadastrar` appends whatever it receives.

Modules:

- `Wrappers` — the `Option` datatype (`None` is `null`).
- `Catalog` — `Produto`, `Outcome`, `Response`, the initial empty list, the
  first-match lookup `FirstIndexByName` and its characterisation
  (`HasName`, `IsFirstMatch`), `CountName`, and the sparse update `ApplyUpdate`.
- `Handlers` — `Listar`, `Cadastrar`, `Remove`, `Buscar`, `Alterar`, each with
  a contract stated against the first-match characterisation rather than the
  lookup function it uses.
- `Properties` — lemmas relating handlers: the count and permutation effect of
  `remove`, round trips between `cadastrar`, `buscar` and `remove`, and the
  idempotence and zero-sentinel behaviour of `alterar`.
- `Session` — a run of requests handled one after another from the empty list,
  with the invariant that no handler invents or rewrites an `id`, `nome` or
  `criadoEm`.

Behaviours of the code worth stating plainly:

- The handlers select by `Nome`, although the table's primary key is `Id`
  (`b.HasKey("Id")` at
  API/API/Migrations/20241001002207_InitialCreate.Designer.cs:40); names are not unique.
- Registering a product and then looking it up by name returns the new product
  only when no earlier product had that name; otherwise the earlier one comes
  back (`Properties.CadastrarThenBuscar`).
- Removing a product and then looking up its name returns 404 only when at most
  one product had that name (`Properties.RemoveThenBuscar`,
  `Properties.RemoveThenBuscarWithDuplicate`).
- `listar` answers 404 on an empty list, with no message; the other handlers'
  404 carries the message "Produto não encontrado.".

`List<T>.Remove` removes the first element equal by reference to the one found.
No earlier element can be that same object, since it would have had the same
name and been found first, so the model deletes the element at the first
matching index.

## Model

| member | source | states |
|---|---|---|
| Catalog.Initial | API/API/Program.cs:14-21 | the product list starts out empty, since every sample entry of its initialiser is commented out |
| Catalog.FirstIndexByName | API/API/Program.cs:41 | the lookup finds an index exactly when some product has the queried name, and the index it finds holds that name with no earlier product holding it; null matches null |
| Catalog.ApplyUpdate | API/API/Program.cs:73-74 | the sparse update takes `Valor` from the request iff it is non-zero and `Quantidade` iff it is non-zero, and keeps `Id`, `Nome` and `CriadoEm` of the stored product |
| Handlers.Listar | API/API/Program.cs:24-30 | `listar` answers 200 with the whole list, unchanged and in order, exactly when it is non-empty, otherwise 404 without a message; the list is not modified |
| Handlers.Cadastrar | API/API/Program.cs:33-36 | `cadastrar` grows the list by exactly one, keeps every earlier product in place, puts the body last and answers 201 with it |
| Handlers.Remove | API/API/Program.cs:39-52 | `remove` succeeds exactly when some product has the body's name; it then deletes exactly the first such product, keeping the others in order, and answers 202 with it; otherwise the list is unchanged and the answer is 404 "Produto não encontrado." |
| Handlers.Buscar | API/API/Program.cs:54-66 | `buscar` answers 200 with the first product whose name equals the body's name, exactly when there is one, otherwise 404 "Produto não encontrado."; the list is never modified |
| Handlers.Alterar | API/API/Program.cs:68-79 | `alterar` changes only the first product with the body's name: `Valor` and `Quantidade` are overwritten iff the supplied value is non-zero, `Id`, `Nome`, `CriadoEm`, the length and every other product stay; it answers 200 with the updated product, or 404 "Produto não encontrado." with the list unchanged |
| Properties.RemoveDecrementsCount | API/API/Program.cs:41-47 | a successful `remove` lowers the number of products with the requested name by exactly one and leaves the count of every other name unchanged |
| Properties.RemoveIsDeletion | API/API/Program.cs:41-47 | the products left by a successful `remove`, together with the product it answers with, are exactly the products before, as a multiset |
| Properties.RemoveThenBuscar | API/API/Program.cs:39-66 | `buscar` after `remove` with the same name answers 404 if and only if at most one product had that name before |
| Properties.RemoveThenBuscarWithDuplicate | API/API/Program.cs:34-66 | for every list in which the requested name occurs again after its first match, `buscar` after `remove` answers with the next product of that name |
| Properties.CadastrarThenBuscar | API/API/Program.cs:33-66 | `buscar` after `cadastrar` answers with the new product when its name was not in use, and otherwise with the same earlier product as before the insertion |
| Properties.CadastrarThenRemove | API/API/Program.cs:33-52 | when the name was not in use, `remove` after `cadastrar` restores the original list and answers 202 with the registered product |
| Properties.AlterarIdempotent | API/API/Program.cs:68-79 | applying the same `alterar` twice gives the same list and answer as applying it once |
| Properties.AlterarWithZerosIsBuscar | API/API/Program.cs:54-79 | an `alterar` whose `Valor` and `Quantidade` are both zero leaves the list unchanged and answers exactly as `buscar` does |
| Properties.AlterarThenBuscar | API/API/Program.cs:54-79 | `buscar` after `alterar` with the same name answers with what `alterar` answered, the updated product or 404 |
| Properties.AlterarKeepsNames | API/API/Program.cs:68-79 | `alterar` leaves the name at every position of the list unchanged |
| Session.Step | API/API/Program.cs:23-79 | a request to any handler other than `cadastrar` never lengthens the list, and a `cadastrar` lengthens it by exactly one |
| Session.Run | API/API/Program.cs:14-79 | a run answers every request, and the list never holds more than its initial products plus those registered during the run |
| Session.StepIdentities | API/API/Program.cs:23-79 | one request introduces no `Id`/`Nome`/`CriadoEm` combination other than that of the product it registers |
| Session.RunIdentities | API/API/Program.cs:23-79 | over any run, every product in the final list carries the `Id`, `Nome` and `CriadoEm` of a product present at the start or registered during the run |
| Session.BuscarNeverCreatedName | API/API/Program.cs:14-66 | from the empty list, `buscar` on a name no `cadastrar` of the run supplied answers 404 "Produto não encontrado." |
| Session.RunCadastrarEach | API/API/Program.cs:33-36 | registering products one after another appends them in order, each answered with 201 and its own product |
| Session.ListarAfterCadastrarEach | API/API/Program.cs:14-36 | after registering N products on a fresh list, `listar` answers 200 with exactly those N products in order, or 404 when N is zero, whether or not names repeat |

## Left out

- The root endpoint `GET /` (API/API/Program.cs:10) returns a constant greeting and touches no state.
- ASP.NET routing, the `Results.*` HTTP objects and status codes are abstracted into the `Outcome` datatype.
- JSON binding of the `[FromBody]` parameter is not modelled: the body is taken as an already-built `Produto`. A missing body is rejected by the framework before any handler runs, so the list never holds a null entry.
- The `Produto()` constructor's `Guid.NewGuid()` and `DateTime.Now` (API/API/Models/Produto.cs:7-10) are nondeterministic; `id` and `criadoEm` are taken as given fields. Because binding runs after the constructor, a body can overwrite `Id` (even with null), so "every stored product has a fresh non-empty id" is not a property of this code and is not claimed.
- `API/API/Models/AppDataContext.cs` (the EF Core context over SQLite) and the migration designer file are database plumbing that the handlers do not use.
- Concurrency on the shared list: each request is one sequential step on the state.
- `Valor` is a `double`; the model uses `real`. Only `!= 0` and assignment touch it, so a NaN `Valor` is not modelled: the web binder reads it from a quoted "NaN", `cadastrar` would store it, and `alterar` would copy it because `NaN != 0` holds. Negative zero needs nothing extra, since `-0.0 != 0` is false in C# as it is for reals.
- `CriadoEm` is a `DateTime`; the model keeps it as an integer tick count, since it is only copied.
- Names compare as sequences of Unicode scalar values; C# compares UTF-16 code units ordinally, which agrees on every well-formed string.
