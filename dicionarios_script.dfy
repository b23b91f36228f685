/**
 * The script-level dict blocks of dicionarios_python.py: the `pessoa`
 * insertions and deletions, the word counter, the deletion of products with
 * low stock and the comprehension filters over the products.
 */
module DicionariosScript {
  import opened Wrappers
  import Dicts

  /** The position of the first occurrence of `w` in `s`. */
  function PrimeiraPosicao(s: seq<string>, w: string): (i: nat)
    requires w in s
    ensures i < |s| && s[i] == w
    ensures forall j :: 0 <= j < i ==> s[j] != w
  {
    if s[0] == w then 0 else 1 + PrimeiraPosicao(s[1..], w)
  }

  /** Appending to a text does not move the first occurrence of a word already in it. */
  lemma PrimeiraPosicaoPrefixo(s: seq<string>, x: string, w: string)
    requires w in s
    ensures PrimeiraPosicao(s + [x], w) == PrimeiraPosicao(s, w)
  {
    var i := PrimeiraPosicao(s, w);
    assert (s + [x])[i] == w;
    assert forall j :: 0 <= j < i ==> (s + [x])[j] == s[j];
  }

  /**
   * The words of a text with each repetition dropped: every word of the text
   * once, in order of first occurrence.
   */
  function SemRepeticao(s: seq<string>): (r: seq<string>)
    ensures forall w :: w in r <==> w in s
    ensures forall i, j :: 0 <= i < j < |r| ==> r[i] != r[j]
    ensures forall i, j :: 0 <= i < j < |r| ==> PrimeiraPosicao(s, r[i]) < PrimeiraPosicao(s, r[j])
  {
    if s == [] then []
    else
      var p, x := s[..|s| - 1], s[|s| - 1];
      var r := SemRepeticao(p);
      assert s == p + [x];
      assert forall w :: w in s <==> w in p || w == x;
      forall w | w in p
        ensures PrimeiraPosicao(s, w) == PrimeiraPosicao(p, w)
      {
        PrimeiraPosicaoPrefixo(p, x, w);
      }
      if x in r then r else r + [x]
  }

  /** `pessoa` after its three assignments and its `update`. */
  const PessoaInicial: Dicts.Dict<string, string> :=
    [("nome", "João"), ("idade", "30"), ("cidade", "São Paulo"), ("profissao", "Programador"), ("salario", "5000")]

  const PessoaComEmail: Dicts.Dict<string, string> :=
    [("nome", "João"), ("idade", "30"), ("cidade", "São Paulo"), ("profissao", "Programador"), ("salario", "5000"),
     ("email", "joao@email.com")]

  const PessoaSemCidade: Dicts.Dict<string, string> :=
    [("nome", "João"), ("idade", "30"), ("profissao", "Programador"), ("salario", "5000"), ("email", "joao@email.com")]

  const PessoaSemSalario: Dicts.Dict<string, string> :=
    [("nome", "João"), ("idade", "30"), ("profissao", "Programador"), ("email", "joao@email.com")]

  const PessoaFinal: Dicts.Dict<string, string> :=
    [("nome", "João"), ("idade", "30"), ("profissao", "Programador")]

  /** `setdefault` of a new key adds it last. */
  lemma SetDefaultEmail()
    ensures Dicts.SetDefault(PessoaInicial, "email", "joao@email.com") == ("joao@email.com", PessoaComEmail)
  {
    Dicts.SetNewKey(PessoaInicial, "email", "joao@email.com");
    assert Dicts.Find(PessoaInicial, "email") == -1;
    assert PessoaInicial + [("email", "joao@email.com")] == PessoaComEmail;
  }

  /** `setdefault` of an existing key returns its value and does not overwrite it. */
  lemma SetDefaultNome()
    ensures Dicts.SetDefault(PessoaComEmail, "nome", "Maria") == ("João", PessoaComEmail)
  {
    Dicts.FindAt(PessoaComEmail, 0, "nome");
  }

  /** `del pessoa['cidade']` drops the third item. */
  lemma DelCidade()
    ensures Dicts.HasKey(PessoaComEmail, "cidade")
    ensures Dicts.RemoveKey(PessoaComEmail, "cidade") == PessoaSemCidade
  {
    Dicts.FindAt(PessoaComEmail, 2, "cidade");
  }

  /** `pop('salario', 0)` returns the salary and drops its item. */
  lemma PopSalario()
    ensures Dicts.PopDefault(PessoaSemCidade, "salario", "0") == ("5000", PessoaSemSalario)
  {
    Dicts.FindAt(PessoaSemCidade, 3, "salario");
    assert PessoaSemCidade[..3] + PessoaSemCidade[4..] == PessoaSemSalario;
  }

  /** `popitem` takes the item inserted last. */
  lemma PopItemEmail()
    ensures Dicts.PopItem(PessoaSemSalario) == Some((("email", "joao@email.com"), PessoaFinal))
  {
    assert PessoaSemSalario[..3] == PessoaFinal;
  }

  /**
   * The `pessoa` block, from the dict its three assignments and its
   * `update` build: two `setdefault` calls (the second on an existing key,
   * so it does not overwrite), `del pessoa['cidade']`, `pop('salario', 0)`
   * and `popitem()`, which takes the last item inserted. Values are kept as
   * text.
   */
  method DemonstracaoPessoa() returns (salario: string, ultimo: Option<(string, string)>, pessoa: Dicts.Dict<string, string>)
    ensures salario == "5000"
    ensures ultimo == Some(("email", "joao@email.com"))
    ensures pessoa == [("nome", "João"), ("idade", "30"), ("profissao", "Programador")]
  {
    pessoa := PessoaInicial;
    SetDefaultEmail();
    var (_, comEmail) := Dicts.SetDefault(pessoa, "email", "joao@email.com");
    pessoa := comEmail;
    SetDefaultNome();
    var (_, mesmo) := Dicts.SetDefault(pessoa, "nome", "Maria");
    pessoa := mesmo;
    DelCidade();
    pessoa := Dicts.RemoveKey(pessoa, "cidade");
    PopSalario();
    var (s, semSalario) := Dicts.PopDefault(pessoa, "salario", "0");
    salario, pessoa := s, semSalario;
    PopItemEmail();
    match Dicts.PopItem(pessoa)
    case Some((item, resto)) =>
      ultimo, pessoa := Some(item), resto;
    case None =>
      ultimo := None;
  }

  /** What `contador[palavra]` reads on a `defaultdict(int)`: 0 for a missing word. */
  function Contagem(contador: Dicts.Dict<string, int>, palavra: string): (n: int)
    ensures Dicts.HasKey(contador, palavra) ==> Dicts.Get(contador, palavra) == Some(n)
    ensures !Dicts.HasKey(contador, palavra) ==> n == 0
  {
    match Dicts.Get(contador, palavra)
    case Some(n) => n
    case None => 0
  }

  /**
   * The `defaultdict(int)` word counter: for each word in turn,
   * `contador_palavras[palavra] += 1`. Each word ends up mapped to its number
   * of occurrences, the keys are the distinct words in order of first
   * occurrence, and the counts add up to the number of words.
   */
  method ContarPalavras(palavras: seq<string>) returns (contador: Dicts.Dict<string, int>)
    ensures Dicts.DistinctKeys(contador)
    ensures forall w :: Contagem(contador, w) == multiset(palavras)[w]
    ensures Dicts.Keys(contador) == SemRepeticao(palavras)
    ensures Dicts.Sum(contador) == |palavras|
  {
    contador := [];
    for i := 0 to |palavras|
      invariant Contado(contador, palavras[..i])
    {
      assert palavras[..i + 1] == palavras[..i] + [palavras[i]];
      contador := ContarPasso(contador, palavras[..i], palavras[i]);
    }
    assert palavras[..|palavras|] == palavras;
  }

  /** One more word adds it at the end of the distinct words, unless it was already there. */
  lemma SemRepeticaoMaisUma(lidas: seq<string>, palavra: string)
    ensures SemRepeticao(lidas + [palavra])
         == if palavra in lidas then SemRepeticao(lidas) else SemRepeticao(lidas) + [palavra]
  {
    var s := lidas + [palavra];
    assert s[..|s| - 1] == lidas && s[|s| - 1] == palavra;
  }

  /** `contador` holds the word count of `palavras`. */
  ghost predicate Contado(contador: Dicts.Dict<string, int>, palavras: seq<string>) {
    && Dicts.DistinctKeys(contador)
    && (forall w :: Contagem(contador, w) == multiset(palavras)[w])
    && Dicts.Keys(contador) == SemRepeticao(palavras)
    && Dicts.Sum(contador) == |palavras|
  }

  /** One `contador[palavra] += 1`: the count of the text grows by one word. */
  function ContarPasso(contador: Dicts.Dict<string, int>, lidas: seq<string>, palavra: string): (r: Dicts.Dict<string, int>)
    requires Contado(contador, lidas)
    ensures Contado(r, lidas + [palavra])
  {
    Dicts.SumSet(contador, palavra, Contagem(contador, palavra) + 1);
    ContagensPasso(contador, lidas, palavra);
    ChavesPasso(contador, lidas, palavra);
    Dicts.Set(contador, palavra, Contagem(contador, palavra) + 1)
  }

  /** After the step, each word's count is its number of occurrences in the longer text. */
  lemma ContagensPasso(contador: Dicts.Dict<string, int>, lidas: seq<string>, palavra: string)
    requires forall w :: Contagem(contador, w) == multiset(lidas)[w]
    ensures forall w :: Contagem(Dicts.Set(contador, palavra, Contagem(contador, palavra) + 1), w)
                     == multiset(lidas + [palavra])[w]
  {
    var r := Dicts.Set(contador, palavra, Contagem(contador, palavra) + 1);
    forall w
      ensures Contagem(r, w) == multiset(lidas + [palavra])[w]
    {
      assert multiset(lidas + [palavra]) == multiset(lidas) + multiset{palavra};
    }
  }

  /** After the step, the keys are the distinct words of the longer text. */
  lemma ChavesPasso(contador: Dicts.Dict<string, int>, lidas: seq<string>, palavra: string)
    requires Dicts.Keys(contador) == SemRepeticao(lidas)
    ensures Dicts.Keys(Dicts.Set(contador, palavra, Contagem(contador, palavra) + 1))
         == SemRepeticao(lidas + [palavra])
  {
    Dicts.HasKeyInKeys(contador, palavra);
    SemRepeticaoMaisUma(lidas, palavra);
  }

  /** A product's record: `{'preco': ..., 'estoque': ..., 'categoria': ...}`. */
  datatype Produto = Produto(preco: int, estoque: int, categoria: string)

  predicate EstoqueBaixo(nome: string, p: Produto) {
    p.estoque < 15
  }

  predicate EstoqueSuficiente(nome: string, p: Produto) {
    p.estoque >= 15
  }

  /**
   * The conditional deletion: the names of the products with stock below 15
   * are collected first, then each is popped from the dict. What is left is
   * exactly the products with enough stock, unchanged and in their order.
   */
  method RemoverEstoqueBaixo(produtos: Dicts.Dict<string, Produto>) returns (restantes: Dicts.Dict<string, Produto>)
    requires Dicts.DistinctKeys(produtos)
    ensures restantes == Dicts.Filter(produtos, EstoqueSuficiente)
    ensures forall e :: e in restantes ==> e.1.estoque >= 15
    ensures forall k :: Dicts.Get(restantes, k)
                     == if Dicts.Get(produtos, k).Some? && Dicts.Get(produtos, k).value.estoque >= 15
                        then Dicts.Get(produtos, k) else None
  {
    var baixoEstoque := Dicts.Keys(Dicts.Filter(produtos, EstoqueBaixo));
    Dicts.FilterKeys(produtos, EstoqueBaixo);
    restantes := PopChaves(produtos, baixoEstoque);
    SemEstoqueBaixo(produtos);
  }

  /**
   * `for produto in chaves: produtos.pop(produto)`, where each listed key is
   * a key of the dict and none is listed twice (a second `pop` of the same
   * key would raise `KeyError`): every listed key is dropped, the rest kept
   * in order.
   */
  method PopChaves(produtos: Dicts.Dict<string, Produto>, chaves: seq<string>) returns (restantes: Dicts.Dict<string, Produto>)
    requires Dicts.DistinctKeys(produtos)
    requires forall j :: 0 <= j < |chaves| ==> Dicts.HasKey(produtos, chaves[j])
    requires forall i, j :: 0 <= i < j < |chaves| ==> chaves[i] != chaves[j]
    ensures restantes == Dicts.WithoutKeys(produtos, chaves)
  {
    restantes := produtos;
    Dicts.WithoutNothing(produtos);
    for i := 0 to |chaves|
      invariant restantes == Dicts.WithoutKeys(produtos, chaves[..i])
    {
      PopChavesPasso(produtos, chaves, i);
      var (removido, resto) := Dicts.PopKey(restantes, chaves[i]);
      restantes := resto;
    }
    assert chaves[..|chaves|] == chaves;
  }

  lemma PrefixoMaisUm(s: seq<string>, i: nat)
    requires i < |s|
    ensures s[..i + 1] == s[..i] + [s[i]]
  {
  }

  /** In a list without repetitions, no element occurs before its own position. */
  lemma NaoListadaAntes(chaves: seq<string>, i: nat)
    requires forall i, j :: 0 <= i < j < |chaves| ==> chaves[i] != chaves[j]
    requires i < |chaves|
    ensures chaves[i] !in chaves[..i]
  {
    forall j | 0 <= j < i
      ensures chaves[..i][j] != chaves[i]
    {
      assert chaves[..i][j] == chaves[j];
    }
  }

  /** The `i`-th pop of the loop finds its key and drops exactly it. */
  lemma PopChavesPasso(produtos: Dicts.Dict<string, Produto>, chaves: seq<string>, i: nat)
    requires Dicts.DistinctKeys(produtos)
    requires forall j :: 0 <= j < |chaves| ==> Dicts.HasKey(produtos, chaves[j])
    requires forall i, j :: 0 <= i < j < |chaves| ==> chaves[i] != chaves[j]
    requires i < |chaves|
    ensures Dicts.HasKey(Dicts.WithoutKeys(produtos, chaves[..i]), chaves[i])
    ensures Dicts.RemoveKey(Dicts.WithoutKeys(produtos, chaves[..i]), chaves[i])
         == Dicts.WithoutKeys(produtos, chaves[..i + 1])
  {
    var feitas, x := chaves[..i], chaves[i];
    NaoListadaAntes(chaves, i);
    assert Dicts.HasKey(produtos, x);
    Dicts.WithoutKeysHasKey(produtos, feitas, x);
    Dicts.RemoveKeyWithout(produtos, feitas, x);
    PrefixoMaisUm(chaves, i);
  }

  /** Dropping the keys of the low-stock products leaves the products with enough stock. */
  lemma SemEstoqueBaixo(produtos: Dicts.Dict<string, Produto>)
    requires Dicts.DistinctKeys(produtos)
    ensures Dicts.WithoutKeys(produtos, Dicts.Keys(Dicts.Filter(produtos, EstoqueBaixo)))
         == Dicts.Filter(produtos, EstoqueSuficiente)
    ensures forall e :: e in Dicts.Filter(produtos, EstoqueSuficiente) ==> e.1.estoque >= 15
    ensures forall k :: Dicts.Get(Dicts.Filter(produtos, EstoqueSuficiente), k)
                     == if Dicts.Get(produtos, k).Some? && Dicts.Get(produtos, k).value.estoque >= 15
                        then Dicts.Get(produtos, k) else None
  {
    var ks := Dicts.Keys(Dicts.Filter(produtos, EstoqueBaixo));
    forall j | 0 <= j < |produtos|
      ensures produtos[j].0 in ks <==> !EstoqueSuficiente(produtos[j].0, produtos[j].1)
    {
      Dicts.KeysOfFilter(produtos, EstoqueBaixo, j);
    }
    Dicts.WithoutKeysIsFilter(produtos, ks, EstoqueSuficiente);
    Dicts.FilterSpec(produtos, EstoqueSuficiente);
  }

  predicate Caro(nome: string, p: Produto) {
    p.preco > 50
  }

  predicate Eletronico(nome: string, p: Produto) {
    p.categoria == "eletrônicos"
  }

  /** `{k: v for k, v in produtos.items() if v['preco'] > 50}`. */
  function ProdutosCaros(produtos: Dicts.Dict<string, Produto>): (r: Dicts.Dict<string, Produto>)
    requires Dicts.DistinctKeys(produtos)
    ensures Dicts.DistinctKeys(r)
    ensures forall e :: e in r <==> e in produtos && e.1.preco > 50
    ensures forall i, j :: 0 <= i < j < |r| ==> Dicts.Find(produtos, r[i].0) < Dicts.Find(produtos, r[j].0)
  {
    Dicts.FilterSpec(produtos, Caro);
    Dicts.Filter(produtos, Caro)
  }

  /** `{k: v for k, v in produtos.items() if v['categoria'] == 'eletrônicos'}`. */
  function Eletronicos(produtos: Dicts.Dict<string, Produto>): (r: Dicts.Dict<string, Produto>)
    requires Dicts.DistinctKeys(produtos)
    ensures Dicts.DistinctKeys(r)
    ensures forall e :: e in r <==> e in produtos && e.1.categoria == "eletrônicos"
    ensures forall i, j :: 0 <= i < j < |r| ==> Dicts.Find(produtos, r[i].0) < Dicts.Find(produtos, r[j].0)
  {
    Dicts.FilterSpec(produtos, Eletronico);
    Dicts.Filter(produtos, Eletronico)
  }
}
