/**
 * The priority-queue demonstration of filas_python.py: tasks pushed with
 * `heapq.heappush` as `(priority, task)` pairs and popped with
 * `heapq.heappop` until the list is empty. Only heapq's contract is
 * modelled: the heap is the list of pushed pairs, and a pop takes out a
 * smallest pair under Python's tuple order.
 */
module Prioridade {
  import Sorting
  import TextOrder

  /** A `(prioridade, tarefa)` pair; a lower number is more urgent. */
  type Tarefa = (int, string)

  /** Python's `<=` on such tuples: priority first, then the task name. */
  predicate TarefaLe(a: Tarefa, b: Tarefa) {
    a.0 < b.0 || (a.0 == b.0 && TextOrder.LessEq(a.1, b.1))
  }

  lemma TarefaLeTotalOrder()
    ensures Sorting.TotalPreorder(TarefaLe)
    ensures Sorting.Antisymmetric(TarefaLe)
  {
    TextOrder.LessEqTotalOrder();
  }

  /**
   * `heapq.heappop` on a non-empty heap (Python raises `IndexError` on an
   * empty one): takes a smallest pair out of the heap.
   */
  method HeapPop(heap: seq<Tarefa>) returns (menor: Tarefa, resto: seq<Tarefa>)
    requires heap != []
    ensures menor in heap
    ensures forall x :: x in heap ==> TarefaLe(menor, x)
    ensures multiset(resto) + multiset{menor} == multiset(heap)
  {
    TarefaLeTotalOrder();
    var m := 0;
    for i := 1 to |heap|
      invariant 0 <= m < |heap|
      invariant forall k :: 0 <= k < i ==> TarefaLe(heap[m], heap[k])
    {
      if !TarefaLe(heap[m], heap[i]) {
        m := i;
      }
    }
    menor := heap[m];
    resto := heap[..m] + heap[m + 1..];
    assert heap == heap[..m] + [heap[m]] + heap[m + 1..];
  }

  /**
   * The whole demonstration: every task is pushed, then popped while the
   * heap is not empty. Tasks come out in ascending `(priority, task)` order,
   * each exactly once: the order `sorted(tarefas)` gives.
   */
  method ProcessarPorPrioridade(tarefas: seq<Tarefa>) returns (ordem: seq<Tarefa>)
    ensures Sorting.SortedBy(ordem, TarefaLe)
    ensures multiset(ordem) == multiset(tarefas)
    ensures ordem == Sorting.SortBy(tarefas, TarefaLe)
  {
    var heap: seq<Tarefa> := [];
    for i := 0 to |tarefas|
      invariant heap == tarefas[..i]
    {
      heap := heap + [tarefas[i]];
    }
    assert tarefas[..|tarefas|] == tarefas;
    ordem := [];
    while heap != []
      invariant multiset(ordem) + multiset(heap) == multiset(tarefas)
      invariant Sorting.SortedBy(ordem, TarefaLe)
      invariant forall i, x :: 0 <= i < |ordem| && x in heap ==> TarefaLe(ordem[i], x)
      decreases |heap|
    {
      var menor, resto := HeapPop(heap);
      var ordem' := ordem + [menor];
      forall i, x | 0 <= i < |ordem'| && x in resto
        ensures TarefaLe(ordem'[i], x)
      {
        assert x in multiset(resto);
        assert x in multiset(heap);
        assert x in heap;
        if i == |ordem| {
          assert ordem'[i] == menor;
        } else {
          assert ordem'[i] == ordem[i];
        }
      }
      ordem := ordem';
      heap := resto;
    }
    TarefaLeTotalOrder();
    Sorting.SortBySorted(tarefas, TarefaLe);
    Sorting.SortedPermutationUnique(ordem, Sorting.SortBy(tarefas, TarefaLe), TarefaLe);
  }

  const Normal: Tarefa := (3, "Tarefa Normal")
  const Urgente: Tarefa := (1, "Tarefa Urgente")
  const Importante: Tarefa := (2, "Tarefa Importante")
  const Baixa: Tarefa := (4, "Tarefa Baixa Prioridade")

  lemma OrdenadaUltimas()
    ensures Sorting.SortBy([Importante, Baixa], TarefaLe) == [Importante, Baixa]
  {
    assert [Importante, Baixa][1..] == [Baixa];
    assert Sorting.SortBy([Baixa], TarefaLe) == [Baixa];
  }

  lemma OrdenadaTres()
    ensures Sorting.SortBy([Urgente, Importante, Baixa], TarefaLe) == [Urgente, Importante, Baixa]
  {
    OrdenadaUltimas();
    assert [Urgente, Importante, Baixa][1..] == [Importante, Baixa];
  }

  lemma InsereNormal()
    ensures Sorting.Insert(Normal, [Urgente, Importante, Baixa], TarefaLe) == [Urgente, Importante, Normal, Baixa]
  {
    assert [Urgente, Importante, Baixa][1..] == [Importante, Baixa];
    assert [Importante, Baixa][1..] == [Baixa];
    assert Sorting.Insert(Normal, [Baixa], TarefaLe) == [Normal, Baixa];
    assert Sorting.Insert(Normal, [Importante, Baixa], TarefaLe) == [Importante, Normal, Baixa];
  }

  /** `sorted` puts the four tasks of the demonstration urgent first, low priority last. */
  lemma DemonstracaoOrdenada()
    ensures Sorting.SortBy([Normal, Urgente, Importante, Baixa], TarefaLe)
         == [Urgente, Importante, Normal, Baixa]
  {
    OrdenadaTres();
    InsereNormal();
    assert [Normal, Urgente, Importante, Baixa][1..] == [Urgente, Importante, Baixa];
  }

  /** The demonstration run: the tasks are executed urgent first, low priority last. */
  method DemonstracaoPrioridade() returns (ordem: seq<Tarefa>)
    ensures ordem == [(1, "Tarefa Urgente"), (2, "Tarefa Importante"),
                      (3, "Tarefa Normal"), (4, "Tarefa Baixa Prioridade")]
  {
    ordem := ProcessarPorPrioridade([Normal, Urgente, Importante, Baixa]);
    DemonstracaoOrdenada();
  }
}
