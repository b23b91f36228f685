# Filas e dicionários em Python — a verified model

This project models the small container classes from a set of Python
teaching scripts about queues and dictionaries:

- `FilaOtimizada` is the deque-backed FIFO queue of `filas_python.py`. The
  model also covers three drivers built on it:
  - the ticket dispenser of `simulacao_atendimento`;
  - the empty-input check of the interactive menu;
  - the `heapq` priority demonstration.
- `DicionarioOrdenado` wraps a Python dict (`dicionarios_python.py`). The
  model also covers the script-level dict blocks of the same file:
  - `setdefault`, `pop` and `popitem`;
  - the word counter;
  - the deletion of low-stock products;
  - the comprehension filters.
- `FilaPersonalizada` is the list-backed queue of `filas_python_old.py`. The
  model also covers that file's deque and sorting demonstrations.

Classes whose fields the scripts update in place are Dafny classes. Their
containers are `seq` fields that the methods reassign. Code that loops is
written as methods, each proved against a specifying function or an explicit
postcondition:
- `Filas.DemonstracaoClasse`;
- `Prioridade.HeapPop` and `Prioridade.ProcessarPorPrioridade`;
- `DicionariosScript.ContarPalavras`;
- `DicionariosScript.PopChaves`, which holds the loop that `DicionariosScript.RemoverEstoqueBaixo` runs.

The dict operations, the sorts and the properties are functions and
lemmas.

## Shared modules

- `Wrappers` gives `Option`, which stands for Python's `None`.
- `Sorting` models Python's `sorted`:
  - it is a stable insertion sort, `SortBy(s, le)`;
  - `reverse=True` is the same sort with the relation flipped;
  - lemmas prove that the result is ordered, is a permutation of the input, is stable, and is idempotent;
  - under an antisymmetric order, the result is the only sorted permutation.
- `TextOrder` is Python's `<` on `str`: code points compared from the left, a proper prefix first.
- `Dicts` models a Python dict (3.7 and later):
  - the dict is its list of `(key, value)` items, in insertion order, with distinct keys;
  - `Get` is the mapping the dict denotes;
  - `Keys` is its iteration order.

## Model

| member | source | states |
|---|---|---|
| Filas.FilaOtimizada.constructor | filas_python.py:23-24 | a new queue is empty |
| Filas.FilaOtimizada.Inserir | filas_python.py:26-28 | the contents become the old contents plus the element at the tail, and the size grows by exactly one |
| Filas.FilaOtimizada.Remover | filas_python.py:30-34 | on a non-empty queue it returns the old head and leaves the old tail; on an empty queue it returns `None` and nothing changes |
| Filas.FilaOtimizada.Primeiro | filas_python.py:36-38 | `None` exactly when the queue is empty, otherwise the head; the queue is not changed |
| Filas.FilaOtimizada.Ultimo | filas_python.py:40-42 | `None` exactly when the queue is empty, otherwise the last element; the queue is not changed |
| Filas.FilaOtimizada.Vazia | filas_python.py:44-46 | true exactly when the size is 0 |
| Filas.FilaOtimizada.Tamanho | filas_python.py:48-50 | the number of queued elements |
| Filas.FilaOtimizada.Limpar | filas_python.py:52-54 | the queue is empty afterwards |
| Filas.FilaOtimizada.Listar | filas_python.py:56-58 | the list of the contents, head first |
| Filas.FilaOtimizada.Ordenar | filas_python.py:60-64 | the new contents are `sorted` of the old ones: in ascending string order, a permutation of the old contents, of the same size |
| Filas.DemonstracaoClasse | filas_python.py:154-168 | FIFO law: inserting n items and then removing while not empty returns them in insertion order and leaves size 0 |
| Filas.MenuAdicionar | filas_python.py:231-236 | the element is accepted exactly when it is non-empty; an accepted element is appended, a refused one leaves the queue unchanged |
| Senhas.Decimal | filas_python.py:311 | `str(n)`: at least one character, all decimal digits, no leading zero; one digit exactly below 10, at most two below 100, at most three below 1000 and at least three from 100 on |
| Senhas.Pad3 | filas_python.py:311 | the `03d` field of the counter is made of decimal digits only |
| Senhas.Senha | filas_python.py:311 | the ticket is `#`, then the `03d` field, then ` - `, then the name, with nothing else |
| Senhas.Pad3Value | filas_python.py:311 | the `03d` field has the value `n`, at least three digits, exactly three when `n < 1000`, and is `str(n)` itself, with no extra zero, from 1000 on |
| Senhas.SenhaRoundTrip | filas_python.py:311 | a ticket `#NNN - nome` reads back as its counter value and its name |
| Senhas.SenhaInjective | filas_python.py:311 | two tickets are equal only if counter and name are equal |
| Senhas.Atendimento.constructor | filas_python.py:289-290 | an empty line and the counter at 1 |
| Senhas.Atendimento.RetirarSenha | filas_python.py:308-316 | a non-empty name enqueues `"#" + 3-digit counter + " - " + nome` and increments the counter; an empty name changes neither; ticket numbers stay between 1 and the counter and increase along the line |
| Senhas.Atendimento.ChamarProximo | filas_python.py:318-319 | the head leaves the line (`None` when empty), and its number is below every number still waiting |
| Prioridade.HeapPop | filas_python.py:143-144 | a pop from a non-empty heap (the loop's `while` guard) returns an element of it that is `<=` every element, and removes exactly one copy of it |
| Prioridade.ProcessarPorPrioridade | filas_python.py:128-145 | tasks come out in ascending `(priority, task)` order, each exactly once, which is `sorted(tarefas)` |
| Prioridade.DemonstracaoPrioridade | filas_python.py:131-145 | the demo runs urgent (1), important (2), normal (3), low (4) |
| Sorting.SortBySorted | filas_python.py:62 | `sorted` under a total preorder returns an ordered list |
| Sorting.SortBy | filas_python.py:62 | `sorted` returns a permutation of its input, of the same length |
| Sorting.SortByStable | dicionarios_python.py:221 | `sorted` is stable: elements that compare equal keep their relative order |
| Sorting.SortByIdempotent | dicionarios_python.py:216 | sorting a sorted list changes nothing |
| Sorting.SortedPermutationUnique | filas_python_old.py:58 | under an antisymmetric order, two sorted permutations of the same elements are equal |
| Sorting.SortByPairwise | dicionarios_python.py:216 | a relation that holds between every two elements still holds after sorting |
| TextOrder.LessEqTotalOrder | filas_python.py:62 | Python's `<=` on strings is total, transitive and antisymmetric |
| DicionariosOrdenados.DicionarioOrdenado.constructor | dicionarios_python.py:196-197 | a new dictionary is empty and is a valid dict |
| DicionariosOrdenados.DicionarioOrdenado.Inserir | dicionarios_python.py:199-201 | the key gets the value; a new key goes last in the order; an existing key keeps its position and the set of keys is unchanged; other keys keep their values |
| DicionariosOrdenados.DicionarioOrdenado.Remover | dicionarios_python.py:204-212 | a present key: its value is returned and only its item is removed, the others keep their order; an absent key: `None` and nothing changes |
| DicionariosOrdenados.DicionarioOrdenado.OrdenarPorChave | dicionarios_python.py:214-216 | the same key-to-value mapping, with keys strictly ascending (strictly descending when reversed) |
| DicionariosOrdenados.ChavesEstritamenteOrdenadas | dicionarios_python.py:216 | sorting the items of a dict by key gives strictly ordered keys, since keys are distinct |
| DicionariosOrdenados.OrdenarPorChaveIdempotente | dicionarios_python.py:216 | sorting by key twice is the same as sorting once |
| DicionariosOrdenados.DicionarioOrdenado.OrdenarPorValor | dicionarios_python.py:219-221 | the same mapping; values non-decreasing (non-increasing when reversed); items of equal value keep their relative order |
| DicionariosOrdenados.OrdenarPorValorEstavel | dicionarios_python.py:221 | sorting by value keeps the order among the items of each value |
| DicionariosOrdenados.DicionarioOrdenado.Filtrar | dicionarios_python.py:224-227 | exactly the items that satisfy the condition, in their original order, with distinct keys; `dados` is only read |
| DicionariosOrdenados.DicionarioOrdenado.Estatisticas | dicionarios_python.py:233-243 | `None` for an empty dict; otherwise the number of items and the smallest and largest values, each attained by some item |
| DicionariosOrdenados.Minimo | dicionarios_python.py:242 | `min` returns an element that is `<=` every element |
| DicionariosOrdenados.Maximo | dicionarios_python.py:243 | `max` returns an element that is `>=` every element |
| Dicts.Find | dicionarios_python.py:206 | the position of the first item with the key, or -1 exactly when no item has it |
| Dicts.HasKey | dicionarios_python.py:206 | `k in d` holds exactly when some item has the key `k` |
| Dicts.Get | dicionarios_python.py:206-207 | the value stored under a key, which `pop` returns after the `in` test: present exactly when the dict has the key, and the pair is then one of the dict's items |
| Dicts.GetIffItem | dicionarios_python.py:206-207 | in a dict, a key maps to a value exactly when the pair is one of its items |
| Dicts.Set | dicionarios_python.py:22-24 | `d[k] = v`: afterwards `k` maps to `v` and every other key keeps its value; keys stay distinct; the key order is unchanged for an existing key and grows by `k` at the end for a new one |
| Dicts.RemoveKey | dicionarios_python.py:40 | `del d[k]` on a dict that has `k`: exactly the item of `k` goes, and putting it back at its position gives the old dict, so the others keep their order |
| Dicts.RemoveKeySpec | dicionarios_python.py:40 | after `del d[k]` every other key keeps its value; in a dict the key is gone and keys stay distinct |
| Dicts.FindDrop | dicionarios_python.py:40 | dropping an item with another key moves the first occurrence of a key back by one position or leaves it where it was |
| Dicts.PopKey | dicionarios_python.py:175 | `d.pop(k)` on a dict that has `k`: returns the value `k` mapped to; putting the item back at its position gives the old dict; every other key keeps its value; in a dict `k` is gone and keys stay distinct |
| Dicts.PopDefault | dicionarios_python.py:44 | `d.pop(k, default)`: a missing key returns `default` and leaves the dict unchanged; otherwise the key's value, and the key is removed |
| Dicts.SetDefault | dicionarios_python.py:30-31 | `setdefault` never overwrites: an existing key returns its value and leaves the dict unchanged; a missing key is added last with the default |
| Dicts.PopItem | dicionarios_python.py:48-49 | `popitem` removes and returns the last item, and `None` stands for the `KeyError` of an empty dict |
| Dicts.Filter | dicionarios_python.py:184 | a comprehension keeps exactly the items that satisfy the condition |
| Dicts.FilterSpec | dicionarios_python.py:184-188 | a filtered dict maps each key to its old value when the item passes, otherwise to nothing, and lists the items in their original order |
| Dicts.SameItemsSameGet | dicionarios_python.py:216 | two dicts with the same items denote the same mapping |
| Dicts.SortByKeepsMapping | dicionarios_python.py:216 | `dict(sorted(d.items()))` keeps every key's value and keeps keys distinct |
| Dicts.WithoutKeys | dicionarios_python.py:174-175 | the dict left after popping a list of keys holds exactly the items whose key is not listed |
| Dicts.RemoveKeyWithout | dicionarios_python.py:174-175 | popping one more key from a dict already stripped of a set of keys strips that set plus the key |
| Dicts.WithoutKeysIsFilter | dicionarios_python.py:173-175 | removing the keys of the items that fail a condition leaves the items that satisfy it |
| Dicts.SumSet | dicionarios_python.py:103 | setting a key changes the sum of the values by the new value minus the old one |
| DicionariosScript.DemonstracaoPessoa | dicionarios_python.py:22-51 | on the `pessoa` dict: the second `setdefault` does not overwrite, `pop('salario', 0)` returns the salary, `popitem` removes the e-mail inserted last, and the final dict is nome, idade, profissao |
| DicionariosScript.SetDefaultEmail | dicionarios_python.py:30 | `setdefault('email', ...)` of a missing key returns the default and adds the item last |
| DicionariosScript.SetDefaultNome | dicionarios_python.py:31 | `setdefault('nome', 'Maria')` returns the existing name and changes nothing |
| DicionariosScript.DelCidade | dicionarios_python.py:40 | `del pessoa['cidade']` finds the key and removes only its item |
| DicionariosScript.PopSalario | dicionarios_python.py:44 | `pop('salario', 0)` returns the stored salary and removes only its item |
| DicionariosScript.PopItemEmail | dicionarios_python.py:49 | `popitem` takes the item inserted last |
| DicionariosScript.Contagem | dicionarios_python.py:103 | reading a `defaultdict(int)` gives the stored count for a present word and 0 for a missing one |
| DicionariosScript.ContarPalavras | dicionarios_python.py:99-103 | each word maps to its number of occurrences; the keys are the distinct words in order of first occurrence; the counts sum to the number of words |
| DicionariosScript.ContarPasso | dicionarios_python.py:103 | one `contador[palavra] += 1` turns the count of a text into the count of the text plus that word |
| DicionariosScript.SemRepeticao | dicionarios_python.py:102-103 | exactly the words of the text, each once, ordered by the position of their first occurrence |
| DicionariosScript.RemoverEstoqueBaixo | dicionarios_python.py:173-178 | afterwards no product has stock below 15, and every product with stock of at least 15 remains with the same record, in the same order |
| DicionariosScript.PopChaves | dicionarios_python.py:174-175 | popping each listed key in turn, where every listed key is in the dict and none is listed twice, leaves the items whose key is not listed, in order |
| DicionariosScript.SemEstoqueBaixo | dicionarios_python.py:173-178 | dropping the keys collected by the low-stock comprehension leaves exactly the products with enough stock |
| DicionariosScript.ProdutosCaros | dicionarios_python.py:184 | exactly the products priced above 50, in their order |
| DicionariosScript.Eletronicos | dicionarios_python.py:188 | exactly the products of category `eletrônicos`, in their order |
| FilasAntigas.FilaPersonalizada.constructor | filas_python_old.py:112-113 | a new queue is empty |
| FilasAntigas.FilaPersonalizada.Inserir | filas_python_old.py:115-117 | the item is appended at the end |
| FilasAntigas.FilaPersonalizada.Remover | filas_python_old.py:120-127 | an empty queue gives `None` and nothing changes; otherwise the old head is returned and the old tail remains |
| FilasAntigas.FilaPersonalizada.EstaVazia | filas_python_old.py:129-131 | true exactly when the size is 0 |
| FilasAntigas.FilaPersonalizada.Tamanho | filas_python_old.py:133-135 | the number of items |
| FilasAntigas.FilaPersonalizada.Frente | filas_python_old.py:137-141 | `None` exactly when empty, otherwise the head, with no change |
| FilasAntigas.FilaPersonalizada.Ordenar | filas_python_old.py:143-145 | the items become `sorted(items, reverse=reverso)`: ascending (descending if `reverso`), a permutation of the old items, of the same length |
| FilasAntigas.TesteFilaPersonalizada | filas_python_old.py:154-168 | inserting A, C, B, sorting and removing twice gives A, then B, and leaves `[C]` |
| FilasAntigas.LetrasOrdenadas | filas_python_old.py:163 | the only ascending arrangement of A, C, B is A, B, C |
| Deques.Deque.constructor | filas_python_old.py:24 | `deque(inicial)` holds exactly the initial elements |
| Deques.Deque.Append | filas_python_old.py:28-31 | `append` puts the element at the back |
| Deques.Deque.AppendLeft | filas_python_old.py:35 | `appendleft` puts the element at the front |
| Deques.Deque.PopLeft | filas_python_old.py:43 | `popleft` removes and returns the front element |
| Deques.Deque.Pop | filas_python_old.py:48 | `pop` removes and returns the back element |
| FilasAntigas.DemonstracaoDeque | filas_python_old.py:24-50 | after four appends and an `appendleft`, `popleft` returns "Antes de todos", `pop` returns "Quarto", and "Primeiro", "Segundo", "Terceiro" remain |
| FilasAntigas.OrdenacaoNumeros | filas_python_old.py:54-63 | `sorted([5,2,8,1,9,3])` is `[1,2,3,5,8,9]`, and with `reverse=True` it is `[9,8,5,3,2,1]` |

## Left out

- `print` narration, `__str__`, `__len__` and `mostrar`. They only write to the console.
- The `input()`-driven loops: `main`, `menu_interativo`, the prompt loop of `simulacao_atendimento`, and `KeyboardInterrupt`. The model has the state step behind each relevant menu choice. Its input is text that `.strip()` has already trimmed; `strip` itself is not modelled.
- The guard of menu option 5 and the truthiness tests such as `if removido:`. Removal results are `Option`, so `None` and a falsy element are never confused.
- `texto.split()`. The word counter takes the list of words.
- `Counter`, `most_common`, `OrderedDict.move_to_end` and `queue.Queue`. They are library internals or concern thread safety.
- The algorithms inside `heapq` and `deque`. Only their observable contracts are modelled.
- The benchmark functions, because they measure wall-clock time.
- Floating-point values. Grades and prices are integers, so `estatisticas` has no mean, and the `DicionarioOrdenado` demonstration with float prices (dicionarios_python.py:246-277) is not part of the model.
- `TypeError` on sorting mixed types. Every sorted sequence holds a single type with a total order.
- DicionariosScript.DemonstracaoPessoa: all values are text ("30", "5000"). The dict it starts from is the one that the three assignments and the `update` call at dicionarios_python.py:22-27 build, so those lines are not replayed step by step.
- Deques.Deque.PopLeft and Deques.Deque.Pop: on an empty deque they return `None`, where Python raises `IndexError`.
- DicionariosOrdenados.DicionarioOrdenado.Estatisticas: its result stands for what `estatisticas` prints (the count, the minimum and the maximum; nothing for an empty dict). The source method returns `None` on both paths. Its `isinstance` test at dicionarios_python.py:240 always passes here, because values are integers.
- Dicts.PopItem: on an empty dict it returns `None`, where Python raises `KeyError`.
- The `KeyError` of `del d[k]` and `d.pop(k)` and the `IndexError` of `heapq.heappop` are not modelled as outcomes. `Dicts.RemoveKey`, `Dicts.PopKey`, `DicionariosScript.PopChaves` and `Prioridade.HeapPop` require the key or the element to be present, as every call in the scripts guarantees.
- Filas.DemonstracaoClasse: it takes any list of items, not only the five strings `Item 1`…`Item 5` of the source.
