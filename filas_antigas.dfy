/**
 * filas_python_old.py: the list-backed queue class `FilaPersonalizada`, the
 * step-by-step deque demonstration and the sorting examples.
 */
module FilasAntigas {
  import opened Wrappers
  import Sorting
  import TextOrder
  import Deques

  /** A FIFO queue over a Python list; `items` is the list, head first. */
  class FilaPersonalizada {
    var items: seq<string>

    constructor ()
      ensures items == []
    {
      items := [];
    }

    /** `items.append(item)`. */
    method Inserir(item: string)
      modifies this
      ensures items == old(items) + [item]
    {
      items := items + [item];
    }

    /** `items.pop(0)`, or `None` on an empty queue. */
    method Remover() returns (r: Option<string>)
      modifies this
      ensures old(items) == [] ==> r == None && items == old(items)
      ensures old(items) != [] ==> r == Some(old(items)[0]) && items == old(items)[1..]
    {
      var vazia := EstaVazia();
      if vazia {
        return None;
      }
      r := Some(items[0]);
      items := items[1..];
    }

    method EstaVazia() returns (b: bool)
      ensures b <==> |items| == 0
    {
      b := |items| == 0;
    }

    method Tamanho() returns (n: nat)
      ensures n == |items|
    {
      n := |items|;
    }

    /** The head without removing it, or `None` on an empty queue. */
    method Frente() returns (r: Option<string>)
      ensures r == None <==> items == []
      ensures r.Some? ==> r.value == items[0]
    {
      var vazia := EstaVazia();
      if vazia {
        return None;
      }
      r := Some(items[0]);
    }

    /** `items.sort(reverse=reverso)`: ascending, or descending when `reverso`. */
    method Ordenar(reverso: bool)
      modifies this
      ensures items == Sorting.SortBy(old(items), if reverso then TextOrder.GreaterEq else TextOrder.LessEq)
      ensures !reverso ==> Sorting.SortedBy(items, TextOrder.LessEq)
      ensures reverso ==> Sorting.SortedBy(items, TextOrder.GreaterEq)
      ensures multiset(items) == multiset(old(items))
      ensures |items| == |old(items)|
    {
      TextOrder.LessEqTotalOrder();
      TextOrder.GreaterEqTotalOrder();
      if reverso {
        Sorting.SortBySorted(items, TextOrder.GreaterEq);
        items := Sorting.SortBy(items, TextOrder.GreaterEq);
      } else {
        Sorting.SortBySorted(items, TextOrder.LessEq);
        items := Sorting.SortBy(items, TextOrder.LessEq);
      }
    }
  }

  lemma LetrasPermutadas(inseridos: seq<string>)
    requires inseridos == ["A", "C", "B"]
    ensures multiset(inseridos) == multiset(["A", "B", "C"])
  {
  }

  lemma LetrasEmOrdem()
    ensures Sorting.SortedBy(["A", "B", "C"], TextOrder.LessEq)
  {
    assert TextOrder.Less("A", "B") && TextOrder.Less("B", "C") && TextOrder.Less("A", "C");
  }

  /** The only ascending arrangement of "A", "C", "B" is "A", "B", "C". */
  lemma LetrasOrdenadas(inseridos: seq<string>, ordenados: seq<string>)
    requires inseridos == ["A", "C", "B"]
    requires Sorting.SortedBy(ordenados, TextOrder.LessEq)
    requires multiset(ordenados) == multiset(inseridos)
    ensures ordenados == ["A", "B", "C"]
  {
    LetrasPermutadas(inseridos);
    LetrasEmOrdem();
    TextOrder.LessEqTotalOrder();
    Sorting.SortedPermutationUnique(ordenados, ["A", "B", "C"], TextOrder.LessEq);
  }

  /**
   * The class test: "A", "C", "B" are inserted, the queue is sorted, and two
   * removals give "A" and then "B", leaving ["C"].
   */
  method TesteFilaPersonalizada() returns (r1: Option<string>, r2: Option<string>, resto: seq<string>)
    ensures r1 == Some("A") && r2 == Some("B")
    ensures resto == ["C"]
  {
    var fila := new FilaPersonalizada();
    fila.Inserir("A");
    fila.Inserir("C");
    fila.Inserir("B");
    ghost var inseridos := fila.items;
    fila.Ordenar(false);
    LetrasOrdenadas(inseridos, fila.items);
    r1 := fila.Remover();
    r2 := fila.Remover();
    resto := fila.items;
  }

  /**
   * The deque demonstration: four appends, an `appendleft`, a `popleft`
   * and a `pop`. The front removal gives the element put in front, the back
   * removal the last one appended.
   */
  method DemonstracaoDeque() returns (primeiro: Option<string>, ultimo: Option<string>, final: seq<string>)
    ensures primeiro == Some("Antes de todos")
    ensures ultimo == Some("Quarto")
    ensures final == ["Primeiro", "Segundo", "Terceiro"]
  {
    var fila := new Deques.Deque([]);
    fila.Append("Primeiro");
    fila.Append("Segundo");
    fila.Append("Terceiro");
    fila.Append("Quarto");
    fila.AppendLeft("Antes de todos");
    primeiro := fila.PopLeft();
    ultimo := fila.Pop();
    final := fila.itens;
  }

  predicate IntLe(a: int, b: int) {
    a <= b
  }

  predicate IntGe(a: int, b: int) {
    a >= b
  }

  lemma IntOrders()
    ensures Sorting.TotalPreorder(IntLe) && Sorting.Antisymmetric(IntLe)
    ensures Sorting.TotalPreorder(IntGe) && Sorting.Antisymmetric(IntGe)
  {
  }

  lemma NumerosPermutados(nums: seq<int>)
    requires nums == [5, 2, 8, 1, 9, 3]
    ensures multiset(nums) == multiset([1, 2, 3, 5, 8, 9])
  {
  }

  lemma NumerosPermutadosReverso(nums: seq<int>)
    requires nums == [5, 2, 8, 1, 9, 3]
    ensures multiset(nums) == multiset([9, 8, 5, 3, 2, 1])
  {
  }

  lemma NumerosEmOrdem()
    ensures Sorting.SortedBy([1, 2, 3, 5, 8, 9], IntLe)
    ensures Sorting.SortedBy([9, 8, 5, 3, 2, 1], IntGe)
  {
  }

  /** `sorted([5, 2, 8, 1, 9, 3])` and its `reverse=True` form. */
  lemma OrdenacaoNumeros()
    ensures Sorting.SortBy([5, 2, 8, 1, 9, 3], IntLe) == [1, 2, 3, 5, 8, 9]
    ensures Sorting.SortBy([5, 2, 8, 1, 9, 3], IntGe) == [9, 8, 5, 3, 2, 1]
  {
    var nums := [5, 2, 8, 1, 9, 3];
    NumerosPermutados(nums);
    NumerosPermutadosReverso(nums);
    NumerosEmOrdem();
    IntOrders();
    Sorting.SortedPermutationIsSortBy(nums, [1, 2, 3, 5, 8, 9], IntLe);
    Sorting.SortedPermutationIsSortBy(nums, [9, 8, 5, 3, 2, 1], IntGe);
  }
}
