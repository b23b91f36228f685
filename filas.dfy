/**
 * The queue class of filas_python.py (`FilaOtimizada`), the demonstration
 * that drains it, and the "add element" step of the interactive menu.
 */
module Filas {
  import opened Wrappers
  import Sorting
  import TextOrder

  /** A FIFO queue over a deque; `conteudo` is the deque, head first. */
  class FilaOtimizada {
    var conteudo: seq<string>

    constructor ()
      ensures conteudo == []
    {
      conteudo := [];
    }

    /** Puts `elemento` at the tail. */
    method Inserir(elemento: string)
      modifies this
      ensures conteudo == old(conteudo) + [elemento]
      ensures |conteudo| == |old(conteudo)| + 1
    {
      conteudo := conteudo + [elemento];
    }

    /** Takes the head off the queue; `None` when there is none. */
    method Remover() returns (r: Option<string>)
      modifies this
      ensures old(conteudo) == [] ==> r == None && conteudo == old(conteudo)
      ensures old(conteudo) != [] ==> r == Some(old(conteudo)[0]) && conteudo == old(conteudo)[1..]
    {
      if conteudo != [] {
        r := Some(conteudo[0]);
        conteudo := conteudo[1..];
      } else {
        r := None;
      }
    }

    /** The head, without removing it. */
    method Primeiro() returns (r: Option<string>)
      ensures r == None <==> conteudo == []
      ensures r.Some? ==> r.value == conteudo[0]
    {
      r := if conteudo != [] then Some(conteudo[0]) else None;
    }

    /** The tail, without removing it. */
    method Ultimo() returns (r: Option<string>)
      ensures r == None <==> conteudo == []
      ensures r.Some? ==> r.value == conteudo[|conteudo| - 1]
    {
      r := if conteudo != [] then Some(conteudo[|conteudo| - 1]) else None;
    }

    method Vazia() returns (b: bool)
      ensures b <==> |conteudo| == 0
    {
      b := |conteudo| == 0;
    }

    method Tamanho() returns (n: nat)
      ensures n == |conteudo|
    {
      n := |conteudo|;
    }

    method Limpar()
      modifies this
      ensures conteudo == []
    {
      conteudo := [];
    }

    /** A copy of the contents, head first. */
    method Listar() returns (l: seq<string>)
      ensures l == conteudo
    {
      l := conteudo;
    }

    /** Replaces the contents by `sorted(contents)`: the clear-and-extend of the source. */
    method Ordenar()
      modifies this
      ensures conteudo == Sorting.SortBy(old(conteudo), TextOrder.LessEq)
      ensures Sorting.SortedBy(conteudo, TextOrder.LessEq)
      ensures multiset(conteudo) == multiset(old(conteudo))
      ensures |conteudo| == |old(conteudo)|
    {
      var elementos := Sorting.SortBy(conteudo, TextOrder.LessEq);
      TextOrder.LessEqTotalOrder();
      Sorting.SortBySorted(conteudo, TextOrder.LessEq);
      conteudo := [];
      conteudo := conteudo + elementos;
    }
  }

  /**
   * The class demonstration: every item is inserted, then the queue is
   * drained while it is not empty. The items come out in the order they went
   * in, and the queue is left empty (the FIFO law).
   */
  method DemonstracaoClasse(itens: seq<string>) returns (removidos: seq<string>, restantes: nat)
    ensures removidos == itens
    ensures restantes == 0
  {
    var fila := new FilaOtimizada();
    for i := 0 to |itens|
      invariant fila.conteudo == itens[..i]
    {
      fila.Inserir(itens[i]);
    }
    assert itens[..|itens|] == itens;
    removidos := [];
    var vazia := fila.Vazia();
    while !vazia
      invariant removidos + fila.conteudo == itens
      invariant vazia <==> fila.conteudo == []
      decreases |fila.conteudo|
    {
      var r := fila.Remover();
      removidos := removidos + [r.value];
      vazia := fila.Vazia();
    }
    restantes := fila.Tamanho();
  }

  /**
   * Option 1 of the interactive menu: the (already stripped) text is added
   * to the queue unless it is empty, in which case the queue is unchanged.
   */
  method MenuAdicionar(fila: FilaOtimizada, elemento: string) returns (aceito: bool)
    modifies fila
    ensures aceito <==> elemento != ""
    ensures fila.conteudo == if aceito then old(fila.conteudo) + [elemento] else old(fila.conteudo)
  {
    aceito := elemento != "";
    if aceito {
      fila.Inserir(elemento);
    }
  }
}
