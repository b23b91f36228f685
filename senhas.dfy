/**
 * The ticket dispenser of `simulacao_atendimento` in filas_python.py: a
 * counter that starts at 1 and a `FilaOtimizada` of tickets written
 * `f"#{contador_senha:03d} - {nome}"`.
 */
module Senhas {
  import opened Wrappers
  import Filas

  predicate IsDigit(c: char) {
    '0' <= c <= '9'
  }

  predicate AllDigits(s: string) {
    forall i :: 0 <= i < |s| ==> IsDigit(s[i])
  }

  function Digit(d: nat): (c: char)
    requires d < 10
    ensures IsDigit(c) && c as int - '0' as int == d
  {
    ('0' as int + d) as char
  }

  /** `str(n)`: the decimal digits of `n`, without leading zeros. */
  function Decimal(n: nat): (s: string)
    ensures 1 <= |s| && AllDigits(s)
    ensures |s| > 1 ==> s[0] != '0'
    ensures n < 10 <==> |s| == 1
    ensures n < 100 ==> |s| <= 2
    ensures n < 1000 ==> |s| <= 3
    ensures 100 <= n ==> |s| >= 3
  {
    if n < 10 then [Digit(n)] else Decimal(n / 10) + [Digit(n % 10)]
  }

  /** The number a string of decimal digits denotes (leading zeros allowed). */
  function Value(s: string): nat
    requires AllDigits(s)
  {
    if s == [] then 0 else Value(s[..|s| - 1]) * 10 + (s[|s| - 1] as int - '0' as int)
  }

  function Zeros(k: nat): (z: string)
    ensures |z| == k && AllDigits(z)
  {
    seq(k, _ => '0')
  }

  /** `f"{n:03d}"`: the digits of `n`, left-padded with zeros to three places. */
  function Pad3(n: nat): (s: string)
    ensures AllDigits(s)
  {
    var d := Decimal(n);
    if |d| < 3 then Zeros(3 - |d|) + d else d
  }

  /** The ticket handed to `nome` when the counter shows `n`. */
  function Senha(n: nat, nome: string): (t: string)
    ensures |t| == |Pad3(n)| + |nome| + 4
    ensures t[0] == '#' && t[1..|Pad3(n)| + 1] == Pad3(n)
    ensures t[|Pad3(n)| + 1..|Pad3(n)| + 4] == " - " && t[|Pad3(n)| + 4..] == nome
  {
    "#" + Pad3(n) + " - " + nome
  }

  /** The longest prefix of `s` made of digits. */
  function LeadingDigits(s: string): (d: string)
    ensures |d| <= |s| && d == s[..|d|] && AllDigits(d)
  {
    if s != [] && IsDigit(s[0]) then [s[0]] + LeadingDigits(s[1..]) else []
  }

  /** Reads a ticket back into its counter value and name. */
  function LerSenha(s: string): Option<(nat, string)> {
    if |s| == 0 || s[0] != '#' then None
    else
      var d := LeadingDigits(s[1..]);
      var resto := s[1 + |d|..];
      if 3 <= |d| && 3 <= |resto| && resto[..3] == " - " then Some((Value(d), resto[3..])) else None
  }

  lemma {:induction false} DecimalValue(n: nat)
    ensures Value(Decimal(n)) == n
  {
    if 10 <= n {
      DecimalValue(n / 10);
      var s := Decimal(n);
      assert s[..|s| - 1] == Decimal(n / 10);
    }
  }

  lemma {:induction false} ZerosValue(k: nat)
    ensures Value(Zeros(k)) == 0
  {
    if k > 0 {
      assert Zeros(k)[..k - 1] == Zeros(k - 1);
      ZerosValue(k - 1);
    }
  }

  lemma {:induction false} LeadingZerosValue(k: nat, s: string)
    requires AllDigits(s)
    ensures Value(Zeros(k) + s) == Value(s)
    decreases |s|
  {
    var z := Zeros(k) + s;
    if s == [] {
      assert z == Zeros(k);
      ZerosValue(k);
    } else {
      assert z[..|z| - 1] == Zeros(k) + s[..|s| - 1];
      LeadingZerosValue(k, s[..|s| - 1]);
    }
  }

  /** The padded counter has at least three digits, exactly three below 1000, and denotes the counter. */
  lemma Pad3Value(n: nat)
    ensures Value(Pad3(n)) == n
    ensures 3 <= |Pad3(n)|
    ensures n < 1000 ==> |Pad3(n)| == 3
    ensures 1000 <= n ==> Pad3(n) == Decimal(n)
  {
    DecimalValue(n);
    var d := Decimal(n);
    if |d| < 3 {
      LeadingZerosValue(3 - |d|, d);
    }
  }

  lemma {:induction false} LeadingDigitsOf(d: string, t: string)
    requires AllDigits(d)
    requires t == [] || !IsDigit(t[0])
    ensures LeadingDigits(d + t) == d
  {
    if d == [] {
      assert d + t == t;
    } else {
      assert (d + t)[1..] == d[1..] + t;
      LeadingDigitsOf(d[1..], t);
    }
  }

  /** Any `#`, run of at least three digits, ` - ` and name reads back as that number and name. */
  lemma LerSenhaOf(p: string, nome: string)
    requires AllDigits(p) && 3 <= |p|
    ensures LerSenha("#" + p + " - " + nome) == Some((Value(p), nome))
  {
    var s := "#" + p + " - " + nome;
    SenhaPartes(p, nome);
    var resto := s[1 + |p|..];
    assert resto[..3] == " - " && resto[3..] == nome;
  }

  /** The pieces `LerSenha` cuts a ticket into. */
  lemma SenhaPartes(p: string, nome: string)
    requires AllDigits(p)
    ensures |"#" + p + " - " + nome| > 0 && ("#" + p + " - " + nome)[0] == '#'
    ensures LeadingDigits(("#" + p + " - " + nome)[1..]) == p
    ensures ("#" + p + " - " + nome)[1 + |p|..] == " - " + nome
  {
    var resto := " - " + nome;
    var s := "#" + (p + resto);
    assert "#" + p + " - " + nome == s;
    assert s[1..] == p + resto;
    LeadingDigitsOf(p, resto);
  }

  /** A ticket reads back as the counter and the name it was made from. */
  lemma SenhaRoundTrip(n: nat, nome: string)
    ensures LerSenha(Senha(n, nome)) == Some((n, nome))
  {
    Pad3Value(n);
    LerSenhaOf(Pad3(n), nome);
  }

  /** Different counter values or names never give the same ticket. */
  lemma SenhaInjective(n1: nat, nome1: string, n2: nat, nome2: string)
    requires Senha(n1, nome1) == Senha(n2, nome2)
    ensures n1 == n2 && nome1 == nome2
  {
    SenhaRoundTrip(n1, nome1);
    SenhaRoundTrip(n2, nome2);
  }

  /** The counter value written on a ticket, or -1 for a string that is not one. */
  function Numero(s: string): int {
    match LerSenha(s)
    case Some(p) => p.0
    case None => -1
  }

  /** The state of `simulacao_atendimento`: the waiting line and `contador_senha`. */
  class Atendimento {
    const fila: Filas.FilaOtimizada
    var contadorSenha: nat

    /**
     * Every waiting ticket carries a number from 1 below the counter, and
     * the numbers grow from head to tail, so people are called in the
     * order they took their tickets.
     */
    ghost predicate Valid()
      reads this, fila
    {
      && 1 <= contadorSenha
      && (forall i :: 0 <= i < |fila.conteudo| ==> 1 <= Numero(fila.conteudo[i]) < contadorSenha)
      && (forall i, j :: 0 <= i < j < |fila.conteudo| ==> Numero(fila.conteudo[i]) < Numero(fila.conteudo[j]))
    }

    constructor ()
      ensures Valid() && fresh(fila)
      ensures fila.conteudo == [] && contadorSenha == 1
    {
      fila := new Filas.FilaOtimizada();
      contadorSenha := 1;
    }

    /**
     * Option 1, "take a ticket": a non-empty name gets the next ticket,
     * which joins the line, and the counter moves on; an empty name is
     * refused and nothing changes.
     */
    method RetirarSenha(nome: string) returns (senha: Option<string>)
      requires Valid()
      modifies this, fila
      ensures Valid()
      ensures nome == "" ==> senha == None
      ensures nome == "" ==> fila.conteudo == old(fila.conteudo) && contadorSenha == old(contadorSenha)
      ensures nome != "" ==> senha == Some(Senha(old(contadorSenha), nome))
      ensures nome != "" ==> fila.conteudo == old(fila.conteudo) + [senha.value]
      ensures nome != "" ==> contadorSenha == old(contadorSenha) + 1
    {
      if nome != "" {
        var s := Senha(contadorSenha, nome);
        SenhaRoundTrip(contadorSenha, nome);
        fila.Inserir(s);
        senha := Some(s);
        contadorSenha := contadorSenha + 1;
      } else {
        senha := None;
      }
    }

    /**
     * Option 2, "call the next one": the head of the line leaves it, and
     * its number is below every number still waiting.
     */
    method ChamarProximo() returns (proximo: Option<string>)
      requires Valid()
      modifies fila
      ensures Valid()
      ensures old(fila.conteudo) == [] ==> proximo == None && fila.conteudo == []
      ensures old(fila.conteudo) != [] ==> proximo == Some(old(fila.conteudo)[0])
      ensures old(fila.conteudo) != [] ==> fila.conteudo == old(fila.conteudo)[1..]
      ensures proximo.Some? ==> forall s :: s in fila.conteudo ==> Numero(proximo.value) < Numero(s)
    {
      proximo := fila.Remover();
      if proximo.Some? {
        forall s | s in fila.conteudo
          ensures Numero(proximo.value) < Numero(s)
        {
          var j :| 0 <= j < |fila.conteudo| && fila.conteudo[j] == s;
          assert s == old(fila.conteudo)[j + 1];
        }
      }
    }
  }
}
