/**
 * `DicionarioOrdenado` of dicionarios_python.py: a class around one Python
 * dict, `dados`, whose item order is changed by sorting. Keys are strings
 * and values integers.
 */
module DicionariosOrdenados {
  import opened Wrappers
  import Sorting
  import TextOrder
  import Dicts

  type Item = (string, int)

  /** Python's `<=` on `(key, value)` tuples: key first, then value. */
  predicate ItemLe(a: Item, b: Item) {
    TextOrder.Less(a.0, b.0) || (a.0 == b.0 && a.1 <= b.1)
  }

  /** The order `sorted(..., reverse=True)` puts the items in. */
  predicate ItemGe(a: Item, b: Item) {
    ItemLe(b, a)
  }

  /** The order `sorted(..., key=lambda x: x[1])` compares the items by. */
  predicate ValorLe(a: Item, b: Item) {
    a.1 <= b.1
  }

  predicate ValorGe(a: Item, b: Item) {
    a.1 >= b.1
  }

  function PorChave(reverso: bool): (Item, Item) -> bool {
    if reverso then ItemGe else ItemLe
  }

  function PorValor(reverso: bool): (Item, Item) -> bool {
    if reverso then ValorGe else ValorLe
  }

  lemma ItemLeTotalOrder()
    ensures Sorting.TotalPreorder(ItemLe) && Sorting.Antisymmetric(ItemLe)
    ensures Sorting.TotalPreorder(ItemGe) && Sorting.Antisymmetric(ItemGe)
  {
    forall a: Item, b: Item ensures ItemLe(a, b) || ItemLe(b, a) {
      TextOrder.LessTrichotomy(a.0, b.0);
    }
    forall a: Item, b: Item, c: Item | ItemLe(a, b) && ItemLe(b, c) ensures ItemLe(a, c) {
      if TextOrder.Less(a.0, b.0) && TextOrder.Less(b.0, c.0) {
        TextOrder.LessTransitive(a.0, b.0, c.0);
      }
    }
    forall a: Item, b: Item | ItemLe(a, b) && ItemLe(b, a) ensures a == b {
      if TextOrder.Less(a.0, b.0) {
        TextOrder.LessAsymmetric(a.0, b.0);
      }
      if TextOrder.Less(b.0, a.0) {
        TextOrder.LessAsymmetric(b.0, a.0);
      }
    }
  }

  lemma PorChaveTotalOrder(reverso: bool)
    ensures Sorting.TotalPreorder(PorChave(reverso)) && Sorting.Antisymmetric(PorChave(reverso))
  {
    ItemLeTotalOrder();
  }

  lemma PorValorTotalPreorder(reverso: bool)
    ensures Sorting.TotalPreorder(PorValor(reverso))
  {
  }

  /**
   * Sorting a dict's items by key puts the keys in strictly ascending order
   * (descending when reversed): keys are distinct, so no two items tie.
   */
  lemma ChavesEstritamenteOrdenadas(d: Dicts.Dict<string, int>, reverso: bool)
    requires Dicts.DistinctKeys(d)
    ensures forall i, j :: 0 <= i < j < |Sorting.SortBy(d, PorChave(reverso))| ==>
      var s := Sorting.SortBy(d, PorChave(reverso));
      if reverso then TextOrder.Less(s[j].0, s[i].0) else TextOrder.Less(s[i].0, s[j].0)
  {
    var s := Sorting.SortBy(d, PorChave(reverso));
    PorChaveTotalOrder(reverso);
    Sorting.SortBySorted(d, PorChave(reverso));
    Dicts.SortByDistinctKeys(d, PorChave(reverso));
    forall i, j | 0 <= i < j < |s|
      ensures if reverso then TextOrder.Less(s[j].0, s[i].0) else TextOrder.Less(s[i].0, s[j].0)
    {
      assert PorChave(reverso)(s[i], s[j]);
      assert s[i].0 != s[j].0;
    }
  }

  /** Sorting by key twice is sorting once. */
  lemma OrdenarPorChaveIdempotente(d: Dicts.Dict<string, int>, reverso: bool)
    ensures Sorting.SortBy(Sorting.SortBy(d, PorChave(reverso)), PorChave(reverso))
         == Sorting.SortBy(d, PorChave(reverso))
  {
    PorChaveTotalOrder(reverso);
    Sorting.SortByIdempotent(d, PorChave(reverso));
  }

  /** The items whose value is `v`, in their order in `d`. */
  function ComValor(d: Dicts.Dict<string, int>, v: int): (r: Dicts.Dict<string, int>)
    ensures forall e :: e in r <==> e in d && e.1 == v
  {
    if d == [] then [] else (if d[0].1 == v then [d[0]] else []) + ComValor(d[1..], v)
  }

  /** Under the value order, the items equivalent to one of value `v` are those of value `v`. */
  lemma {:induction false} EquivalentesComValor(d: Dicts.Dict<string, int>, reverso: bool, z: Item)
    ensures Sorting.Equivalents(d, PorValor(reverso), z) == ComValor(d, z.1)
  {
    if d != [] {
      EquivalentesComValor(d[1..], reverso, z);
    }
  }

  /** Sorting by value is stable: items of equal value keep their relative order. */
  lemma OrdenarPorValorEstavel(d: Dicts.Dict<string, int>, reverso: bool, v: int)
    ensures ComValor(Sorting.SortBy(d, PorValor(reverso)), v) == ComValor(d, v)
  {
    var z: Item := ("", v);
    Sorting.SortByStable(d, PorValor(reverso), z);
    EquivalentesComValor(d, reverso, z);
    EquivalentesComValor(Sorting.SortBy(d, PorValor(reverso)), reverso, z);
  }

  /** The smallest of a non-empty list of numbers: Python's `min`. */
  function Minimo(s: seq<int>): (m: int)
    requires s != []
    ensures m in s && forall x :: x in s ==> m <= x
  {
    if |s| == 1 then s[0]
    else
      var m := Minimo(s[1..]);
      assert forall x :: x in s ==> x == s[0] || x in s[1..];
      if s[0] <= m then s[0] else m
  }

  /** The largest of a non-empty list of numbers: Python's `max`. */
  function Maximo(s: seq<int>): (m: int)
    requires s != []
    ensures m in s && forall x :: x in s ==> x <= m
  {
    if |s| == 1 then s[0]
    else
      var m := Maximo(s[1..]);
      assert forall x :: x in s ==> x == s[0] || x in s[1..];
      if s[0] >= m then s[0] else m
  }

  /** What `estatisticas` reports: number of items, smallest and largest value. */
  datatype Estatistica = Estatistica(itens: nat, minimo: int, maximo: int)

  class DicionarioOrdenado {
    var dados: Dicts.Dict<string, int>

    /** `dados` is a dict: no key occurs twice. */
    predicate Valid()
      reads this
    {
      Dicts.DistinctKeys(dados)
    }

    constructor ()
      ensures Valid() && dados == []
    {
      dados := [];
    }

    /** `self.dados[chave] = valor`. */
    method Inserir(chave: string, valor: int)
      requires Valid()
      modifies this
      ensures Valid()
      ensures dados == Dicts.Set(old(dados), chave, valor)
      ensures Dicts.Get(dados, chave) == Some(valor)
      ensures forall k :: k != chave ==> Dicts.Get(dados, k) == Dicts.Get(old(dados), k)
      ensures Dicts.HasKey(old(dados), chave) ==> Dicts.Keys(dados) == Dicts.Keys(old(dados))
      ensures !Dicts.HasKey(old(dados), chave) ==> Dicts.Keys(dados) == Dicts.Keys(old(dados)) + [chave]
    {
      dados := Dicts.Set(dados, chave, valor);
    }

    /**
     * Removes `chave` and returns its value; a missing key gives `None` and
     * changes nothing. The other items keep their order.
     */
    method Remover(chave: string) returns (valor: Option<int>)
      requires Valid()
      modifies this
      ensures Valid()
      ensures valor == Dicts.Get(old(dados), chave)
      ensures valor == None ==> dados == old(dados)
      ensures valor.Some? ==> dados == old(dados)[..Dicts.Find(old(dados), chave)]
                                     + old(dados)[Dicts.Find(old(dados), chave) + 1..]
      ensures Dicts.Get(dados, chave) == None
      ensures forall k :: k != chave ==> Dicts.Get(dados, k) == Dicts.Get(old(dados), k)
    {
      if Dicts.HasKey(dados, chave) {
        var (v, resto) := Dicts.PopKey(dados, chave);
        dados := resto;
        valor := Some(v);
      } else {
        valor := None;
      }
    }

    /** `self.dados = dict(sorted(self.dados.items(), reverse=reverso))`. */
    method OrdenarPorChave(reverso: bool)
      requires Valid()
      modifies this
      ensures Valid()
      ensures dados == Sorting.SortBy(old(dados), PorChave(reverso))
      ensures forall k :: Dicts.Get(dados, k) == Dicts.Get(old(dados), k)
      ensures forall i, j :: 0 <= i < j < |dados| ==>
        if reverso then TextOrder.Less(dados[j].0, dados[i].0) else TextOrder.Less(dados[i].0, dados[j].0)
    {
      Dicts.SortByKeepsMapping(dados, PorChave(reverso));
      ChavesEstritamenteOrdenadas(dados, reverso);
      dados := Sorting.SortBy(dados, PorChave(reverso));
    }

    /** `self.dados = dict(sorted(self.dados.items(), key=lambda x: x[1], reverse=reverso))`. */
    method OrdenarPorValor(reverso: bool)
      requires Valid()
      modifies this
      ensures Valid()
      ensures dados == Sorting.SortBy(old(dados), PorValor(reverso))
      ensures forall k :: Dicts.Get(dados, k) == Dicts.Get(old(dados), k)
      ensures forall i, j :: 0 <= i < j < |dados| ==>
        if reverso then dados[i].1 >= dados[j].1 else dados[i].1 <= dados[j].1
      ensures forall v :: ComValor(dados, v) == ComValor(old(dados), v)
    {
      Dicts.SortByKeepsMapping(dados, PorValor(reverso));
      PorValorTotalPreorder(reverso);
      Sorting.SortBySorted(dados, PorValor(reverso));
      forall v ensures ComValor(Sorting.SortBy(dados, PorValor(reverso)), v) == ComValor(dados, v) {
        OrdenarPorValorEstavel(dados, reverso, v);
      }
      dados := Sorting.SortBy(dados, PorValor(reverso));
    }

    /**
     * `{k: v for k, v in self.dados.items() if condicao(k, v)}`: exactly the
     * items satisfying `condicao`, in their order; `dados` is only read.
     */
    function Filtrar(condicao: (string, int) -> bool): (r: Dicts.Dict<string, int>)
      requires Valid()
      reads this
      ensures Dicts.DistinctKeys(r)
      ensures forall e :: e in r <==> e in dados && condicao(e.0, e.1)
      ensures forall i, j :: 0 <= i < j < |r| ==> Dicts.Find(dados, r[i].0) < Dicts.Find(dados, r[j].0)
    {
      Dicts.FilterSpec(dados, condicao);
      Dicts.Filter(dados, condicao)
    }

    /**
     * What `estatisticas` prints: nothing for an empty dict, otherwise the
     * number of items and the smallest and largest values.
     */
    function Estatisticas(): (r: Option<Estatistica>)
      reads this
      ensures dados == [] <==> r == None
      ensures r.Some? ==> r.value.itens == |dados|
      ensures r.Some? ==> forall i :: 0 <= i < |dados| ==> r.value.minimo <= dados[i].1 <= r.value.maximo
      ensures r.Some? ==> exists i :: 0 <= i < |dados| && dados[i].1 == r.value.minimo
      ensures r.Some? ==> exists i :: 0 <= i < |dados| && dados[i].1 == r.value.maximo
    {
      if dados == [] then None
      else
        var valores := Dicts.Values(dados);
        assert forall i :: 0 <= i < |dados| ==> dados[i].1 in valores;
        Some(Estatistica(|dados|, Minimo(valores), Maximo(valores)))
    }
  }
}
