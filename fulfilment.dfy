/**
 * The request-fulfilment rules of views.py, stated on values: the stock
 * count of a (group, component, bank) bucket, the feasibility check of an
 * order, the FIFO consumption of a line, the all-or-nothing attempt made
 * when an order is created and when a donation arrives, and the pass over
 * the bank's active orders after a donation.  The methods of views.dfy
 * are proved to compute exactly these functions.
 */
module Fulfilment {
  import opened Common
  import opened Ordering
  import opened Models

  /** A unit in stock in a bucket: valid, of the group, the component and the bank. */
  predicate InBucket(d: Doacao, tipo: TipoSangue, comp: Componente, banco: nat) {
    d.valido && d.tipo == tipo && d.componente == comp && d.banco == banco
  }

  /** The rows of the bucket: `Doacao.objects.filter(dador__tipo_sangue=tipo, componente=comp, valido=True, banco=banco)`. */
  function Bucket(u: seq<Doacao>, tipo: TipoSangue, comp: Componente, banco: nat): set<nat> {
    set i: nat | i < |u| && InBucket(u[i], tipo, comp, banco)
  }

  /** The same query's `.count()`. */
  function Stock(u: seq<Doacao>, tipo: TipoSangue, comp: Componente, banco: nat): nat {
    |Bucket(u, tipo, comp, banco)|
  }

  /** The bucket's rows among the first `n`, in table order. */
  function Candidates(u: seq<Doacao>, tipo: TipoSangue, comp: Componente, banco: nat, n: nat): (r: seq<Key>)
    requires n <= |u|
    ensures forall i :: 0 <= i < |r| ==>
      r[i].pos < n && InBucket(u[r[i].pos], tipo, comp, banco) && r[i].data == u[r[i].pos].data
    ensures forall i, j :: 0 <= i < j < |r| ==> r[i].pos < r[j].pos
    ensures forall p :: 0 <= p < n && InBucket(u[p], tipo, comp, banco) ==> Key(u[p].data, p) in r
  {
    if n == 0 then []
    else
      var prev := Candidates(u, tipo, comp, banco, n - 1);
      if InBucket(u[n - 1], tipo, comp, banco) then prev + [Key(u[n - 1].data, n - 1)] else prev
  }

  /** The query `.order_by('data')`: the bucket's rows, oldest first. */
  function Query(u: seq<Doacao>, tipo: TipoSangue, comp: Componente, banco: nat): seq<Key> {
    Sort(Candidates(u, tipo, comp, banco, |u|))
  }

  /** The query sorted oldest first holds each row of the bucket once and nothing else. */
  lemma QueryFacts(u: seq<Doacao>, tipo: TipoSangue, comp: Componente, banco: nat)
    ensures var q := Query(u, tipo, comp, banco);
      && Sorted(q) && DistinctPos(q)
      && (forall i :: 0 <= i < |q| ==>
            q[i].pos < |u| && q[i].data == u[q[i].pos].data && InBucket(u[q[i].pos], tipo, comp, banco))
      && Positions(q) == Bucket(u, tipo, comp, banco)
      && |q| == Stock(u, tipo, comp, banco)
  {
    var c := Candidates(u, tipo, comp, banco, |u|);
    var q := Query(u, tipo, comp, banco);
    assert forall i :: 0 <= i < |q| ==> q[i] in c;
    assert DistinctPos(q);
    forall p | p in Bucket(u, tipo, comp, banco) ensures p in Positions(q) {
      assert Key(u[p].data, p) in q;
    }
    PositionsCard(q);
  }

  /** The units one line takes: `.order_by('data')[:quantidade]`. */
  function Selection(u: seq<Doacao>, l: Linha, banco: nat): seq<Key> {
    Take(Query(u, l.tipo, l.componente, banco), l.quantidade)
  }

  /** `d.valido = False` on every listed row. */
  function Invalidate(u: seq<Doacao>, rows: set<nat>): seq<Doacao> {
    seq(|u|, i requires 0 <= i < |u| => if i in rows then u[i].(valido := false) else u[i])
  }

  /** One line's consumption loop (views.py, criar_pedido and registar_doacao). */
  function ConsumeLine(u: seq<Doacao>, l: Linha, banco: nat): seq<Doacao> {
    Invalidate(u, Positions(Selection(u, l, banco)))
  }

  /** The rows a step turned from in stock to consumed. */
  function Consumed(u: seq<Doacao>, u': seq<Doacao>): set<nat> {
    set i: nat | i < |u| && i < |u'| && u[i].valido && !u'[i].valido
  }

  /**
   * The only change a step may make to the units: some valid units become
   * consumed.  Nothing else about any unit changes and no unit comes back.
   */
  ghost predicate Evolves(u: seq<Doacao>, u': seq<Doacao>) {
    |u'| == |u| &&
    forall i :: 0 <= i < |u| ==> u'[i] == u[i] || (u[i].valido && u'[i] == u[i].(valido := false))
  }

  lemma EvolvesTransitive(u: seq<Doacao>, v: seq<Doacao>, w: seq<Doacao>)
    requires Evolves(u, v) && Evolves(v, w)
    ensures Evolves(u, w)
  {
  }

  lemma SubsetCard(a: set<nat>, c: set<nat>)
    requires c <= a
    ensures |a - c| == |a| - |c|
  {
    assert a == (a - c) + c;
    assert (a - c) * c == {};
  }

  lemma SelectionFacts(u: seq<Doacao>, l: Linha, banco: nat)
    ensures var s := Selection(u, l, banco);
      var b := Bucket(u, l.tipo, l.componente, banco);
      && Positions(s) <= b
      && |Positions(s)| == Min(l.quantidade, |b|)
      && (forall i, j :: i in Positions(s) && j in b - Positions(s) ==>
            Less(Key(u[i].data, i), Key(u[j].data, j)))
  {
    var q := Query(u, l.tipo, l.componente, banco);
    var s := Selection(u, l, banco);
    var b := Bucket(u, l.tipo, l.componente, banco);
    QueryFacts(u, l.tipo, l.componente, banco);
    assert DistinctPos(s);
    PositionsCard(s);
    assert forall z :: 0 <= z < |s| ==> s[z] == q[z] && s[z].pos in Positions(s);
    forall i, j | i in Positions(s) && j in b - Positions(s)
      ensures Less(Key(u[i].data, i), Key(u[j].data, j))
    {
      var x :| 0 <= x < |s| && s[x].pos == i;
      var y :| 0 <= y < |q| && q[y].pos == j;
      assert x < y;
    }
  }

  /**
   * One line's bucket holds at least `quantidade` units: exactly `quantidade`
   * of them go from valid to consumed (fewer when the bucket is short, all
   * it has), all from the line's bucket, the oldest ones first; every other
   * unit is left as it was.
   */
  lemma ConsumeLineSpec(u: seq<Doacao>, l: Linha, banco: nat)
    ensures var u' := ConsumeLine(u, l, banco);
      var b := Bucket(u, l.tipo, l.componente, banco);
      var c := Consumed(u, u');
      && Evolves(u, u')
      && c <= b
      && |c| == Min(l.quantidade, Stock(u, l.tipo, l.componente, banco))
      && (forall i :: 0 <= i < |u| && i !in c ==> u'[i] == u[i])
      && Bucket(u', l.tipo, l.componente, banco) == b - c
      && (forall i, j :: i in c && j in b - c ==> u[i].data <= u[j].data)
  {
    var u' := ConsumeLine(u, l, banco);
    var p := Positions(Selection(u, l, banco));
    var b := Bucket(u, l.tipo, l.componente, banco);
    SelectionFacts(u, l, banco);
    ConsumedRows(u, p);
    assert p <= b;
    assert Bucket(u', l.tipo, l.componente, banco) == b - p;
  }

  /** Invalidating rows that are all in stock consumes exactly those rows. */
  lemma ConsumedRows(u: seq<Doacao>, rows: set<nat>)
    requires forall i :: i in rows ==> i < |u| && u[i].valido
    ensures Evolves(u, Invalidate(u, rows))
    ensures Consumed(u, Invalidate(u, rows)) == rows
  {
    var u' := Invalidate(u, rows);
    assert forall i :: 0 <= i < |u| ==> u'[i] == if i in rows then u[i].(valido := false) else u[i];
  }

  /** Consumption lowers the line's stock by the quantity, down to zero at most, and leaves every other bucket alone. */
  lemma ConsumeLineStock(u: seq<Doacao>, l: Linha, banco: nat, tipo: TipoSangue, comp: Componente, b2: nat)
    ensures var u' := ConsumeLine(u, l, banco);
      var s := Stock(u, tipo, comp, b2);
      if (tipo, comp, b2) == (l.tipo, l.componente, banco)
      then Stock(u', tipo, comp, b2) == s - Min(l.quantidade, s)
      else Bucket(u', tipo, comp, b2) == Bucket(u, tipo, comp, b2)
  {
    var u' := ConsumeLine(u, l, banco);
    ConsumeLineSpec(u, l, banco);
    var c := Consumed(u, u');
    if (tipo, comp, b2) == (l.tipo, l.componente, banco) {
      SubsetCard(Bucket(u, tipo, comp, b2), c);
    }
  }

  /** All lines of an order consumed in turn, each against the stock its predecessors left. */
  function ConsumeAll(u: seq<Doacao>, ls: seq<Linha>, banco: nat): seq<Doacao>
    decreases |ls|
  {
    if ls == [] then u else ConsumeAll(ConsumeLine(u, ls[0], banco), ls[1..], banco)
  }

  /** What the order's lines ask of one bucket, summed. */
  function Demand(ls: seq<Linha>, tipo: TipoSangue, comp: Componente): nat {
    if ls == [] then 0
    else (if ls[0].tipo == tipo && ls[0].componente == comp then ls[0].quantidade else 0) + Demand(ls[1..], tipo, comp)
  }

  /** The unit belongs to a bucket that some line of the order names, in the order's bank. */
  predicate Requested(d: Doacao, ls: seq<Linha>, banco: nat) {
    d.banco == banco && exists k :: 0 <= k < |ls| && ls[k].tipo == d.tipo && ls[k].componente == d.componente
  }

  /**
   * Consuming all lines takes from each bucket of the bank the order's total
   * demand on it, or the whole bucket when that is smaller; buckets of other
   * banks keep their rows; only units the order requests change, and only
   * from valid to consumed.
   */
  lemma {:induction false} ConsumeAllSpec(u: seq<Doacao>, ls: seq<Linha>, banco: nat)
    ensures var u' := ConsumeAll(u, ls, banco);
      && Evolves(u, u')
      && (forall i :: 0 <= i < |u| && !Requested(u[i], ls, banco) ==> u'[i] == u[i])
      && (forall tipo, comp ::
            Stock(u', tipo, comp, banco) ==
            Stock(u, tipo, comp, banco) - Min(Stock(u, tipo, comp, banco), Demand(ls, tipo, comp)))
      && (forall tipo, comp, b2 :: b2 != banco ==> Bucket(u', tipo, comp, b2) == Bucket(u, tipo, comp, b2))
    decreases |ls|
  {
    if ls != [] {
      var l := ls[0];
      var v := ConsumeLine(u, l, banco);
      ConsumeLineSpec(u, l, banco);
      ConsumeAllSpec(v, ls[1..], banco);
      var u' := ConsumeAll(u, ls, banco);
      assert u' == ConsumeAll(v, ls[1..], banco);
      EvolvesTransitive(u, v, u');
      forall i | 0 <= i < |u| && !Requested(u[i], ls, banco) ensures u'[i] == u[i] {
        assert v[i] == u[i] by {
          assert i !in Bucket(u, l.tipo, l.componente, banco) by {
            assert !(u[i].banco == banco && ls[0].tipo == u[i].tipo && ls[0].componente == u[i].componente);
          }
        }
        assert !Requested(v[i], ls[1..], banco) by {
          forall k | 0 <= k < |ls[1..]| ensures !(ls[1..][k].tipo == v[i].tipo && ls[1..][k].componente == v[i].componente && v[i].banco == banco) {
            assert ls[1..][k] == ls[k + 1];
          }
        }
      }
      forall tipo, comp
        ensures Stock(u', tipo, comp, banco) ==
                Stock(u, tipo, comp, banco) - Min(Stock(u, tipo, comp, banco), Demand(ls, tipo, comp))
      {
        ConsumeLineStock(u, l, banco, tipo, comp, banco);
      }
      forall tipo, comp, b2 | b2 != banco
        ensures Bucket(u', tipo, comp, b2) == Bucket(u, tipo, comp, b2)
      {
        ConsumeLineStock(u, l, banco, tipo, comp, b2);
      }
    }
  }

  /**
   * What a step consumed from a bucket of the bank is that bucket's oldest:
   * no unit left in the bucket is older than a unit taken from it.
   */
  ghost predicate OldestFirst(u: seq<Doacao>, u': seq<Doacao>, banco: nat) {
    forall tipo, comp, i, j ::
      i in Consumed(u, u') && i in Bucket(u, tipo, comp, banco) && j in Bucket(u', tipo, comp, banco) ==>
      u[i].data <= u'[j].data
  }

  /**
   * FIFO for a whole order: whatever the lines, two of them on one bucket
   * included, the units the order takes from a bucket are its oldest.
   */
  lemma {:induction false} ConsumeAllOldestFirst(u: seq<Doacao>, ls: seq<Linha>, banco: nat)
    ensures OldestFirst(u, ConsumeAll(u, ls, banco), banco)
    decreases |ls|
  {
    if ls != [] {
      var l := ls[0];
      var v := ConsumeLine(u, l, banco);
      var u' := ConsumeAll(u, ls, banco);
      assert u' == ConsumeAll(v, ls[1..], banco);
      ConsumeLineSpec(u, l, banco);
      ConsumeAllSpec(v, ls[1..], banco);
      ConsumeAllOldestFirst(v, ls[1..], banco);
      forall tipo, comp, i, j | i in Consumed(u, u') && i in Bucket(u, tipo, comp, banco) && j in Bucket(u', tipo, comp, banco)
        ensures u[i].data <= u'[j].data
      {
        assert u'[j] == v[j];
        assert j in Bucket(v, tipo, comp, banco);
        if i in Consumed(u, v) {
          assert (tipo, comp) == (l.tipo, l.componente);
        } else {
          assert v[i] == u[i];
          assert i in Consumed(v, u') && i in Bucket(v, tipo, comp, banco);
        }
      }
    }
  }

  /** The stock check of views.py: every line, alone, against the current stock of its bucket. */
  predicate Feasible(u: seq<Doacao>, ls: seq<Linha>, banco: nat) {
    forall k :: 0 <= k < |ls| ==> Stock(u, ls[k].tipo, ls[k].componente, banco) >= ls[k].quantidade
  }

  /** No two lines of the order name the same bucket. */
  predicate DistinctBuckets(ls: seq<Linha>) {
    forall i, j :: 0 <= i < j < |ls| ==> (ls[i].tipo, ls[i].componente) != (ls[j].tipo, ls[j].componente)
  }

  lemma {:induction false} DemandOfDistinct(ls: seq<Linha>, k: nat)
    requires DistinctBuckets(ls) && k < |ls|
    ensures Demand(ls, ls[k].tipo, ls[k].componente) == ls[k].quantidade
  {
    var t, c := ls[k].tipo, ls[k].componente;
    if k == 0 {
      DemandAbsent(ls[1..], t, c);
    } else {
      assert ls[1..][k - 1] == ls[k];
      DemandOfDistinct(ls[1..], k - 1);
    }
  }

  lemma {:induction false} DemandAbsent(ls: seq<Linha>, tipo: TipoSangue, comp: Componente)
    requires forall i :: 0 <= i < |ls| ==> (ls[i].tipo, ls[i].componente) != (tipo, comp)
    ensures Demand(ls, tipo, comp) == 0
  {
    if ls != [] {
      DemandAbsent(ls[1..], tipo, comp);
    }
  }

  /**
   * Conservation for an order whose lines name distinct buckets: when the
   * check passes, each line's bucket loses exactly the line's quantity.
   */
  lemma ConservationDistinctBuckets(u: seq<Doacao>, ls: seq<Linha>, banco: nat, k: nat)
    requires DistinctBuckets(ls) && Feasible(u, ls, banco) && k < |ls|
    ensures Stock(u, ls[k].tipo, ls[k].componente, banco) - Stock(ConsumeAll(u, ls, banco), ls[k].tipo, ls[k].componente, banco)
            == ls[k].quantidade
  {
    ConsumeAllSpec(u, ls, banco);
    DemandOfDistinct(ls, k);
  }

  /**
   * Two lines on the same bucket are each checked against the whole stock,
   * not against their sum: with three units in stock an order of two lines
   * of two units passes the check, and the order is then served three units
   * in place of four.
   */
  lemma SameBucketShortfall()
    ensures Feasible(TresUnidades, DuasLinhas, 0)
    ensures Demand(DuasLinhas, ONegativo, Sangue) == 4
    ensures Stock(TresUnidades, ONegativo, Sangue, 0) - Stock(ConsumeAll(TresUnidades, DuasLinhas, 0), ONegativo, Sangue, 0) == 3
  {
    TresUnidadesStock();
    DuasLinhasDemand();
    assert forall k :: 0 <= k < |DuasLinhas| ==> DuasLinhas[k] == Linha(ONegativo, Sangue, 2);
    ConsumeAllSpec(TresUnidades, DuasLinhas, 0);
  }

  /** Three valid whole-blood O- units of bank 0. */
  const TresUnidades: seq<Doacao> :=
    [Doacao(1, Sangue, true, 0, ONegativo, 0), Doacao(2, Sangue, true, 0, ONegativo, 0), Doacao(3, Sangue, true, 0, ONegativo, 0)]

  /** Two lines of two whole-blood O- units each. */
  const DuasLinhas: seq<Linha> := [Linha(ONegativo, Sangue, 2), Linha(ONegativo, Sangue, 2)]

  lemma TresUnidadesStock()
    ensures Stock(TresUnidades, ONegativo, Sangue, 0) == 3
  {
    assert Bucket(TresUnidades, ONegativo, Sangue, 0) == {0, 1, 2} by {
      forall i ensures i in Bucket(TresUnidades, ONegativo, Sangue, 0) <==> i in {0, 1, 2} {
      }
    }
  }

  lemma DuasLinhasDemand()
    ensures Demand(DuasLinhas, ONegativo, Sangue) == 4
  {
    assert DuasLinhas[1..] == [Linha(ONegativo, Sangue, 2)];
    assert DuasLinhas[1..][1..] == [];
  }

  /** criar_pedido, steps 3 and 4: the order is concluded only when it has a line and every line's bucket covers it. */
  function AttemptAtCreation(u: seq<Doacao>, ls: seq<Linha>, banco: nat): (seq<Doacao>, Estado) {
    if Feasible(u, ls, banco) && ls != [] then (ConsumeAll(u, ls, banco), Concluido) else (u, Ativo)
  }

  /** registar_doacao, the same attempt on a stored order: the check has no guard for an order without lines. */
  function AttemptAfterDonation(u: seq<Doacao>, p: Pedido): (seq<Doacao>, Estado) {
    if Feasible(u, p.itens, p.banco) then (ConsumeAll(u, p.itens, p.banco), Concluido) else (u, p.estado)
  }

  /**
   * All or nothing at creation: the order is concluded exactly when it has a
   * line and every line passes the check, and then each bucket loses the
   * demand on it (capped by its stock); otherwise it stays active and no unit
   * changes.
   */
  lemma CreationAllOrNothing(u: seq<Doacao>, ls: seq<Linha>, banco: nat)
    ensures var (u', e) := AttemptAtCreation(u, ls, banco);
      && (e == Concluido <==> ls != [] && Feasible(u, ls, banco))
      && (e != Concluido ==> e == Ativo && u' == u)
      && Evolves(u, u')
      && (forall i :: 0 <= i < |u| && !Requested(u[i], ls, banco) ==> u'[i] == u[i])
      && (e == Concluido ==> forall tipo, comp ::
            Stock(u', tipo, comp, banco) ==
            Stock(u, tipo, comp, banco) - Min(Stock(u, tipo, comp, banco), Demand(ls, tipo, comp)))
      && OldestFirst(u, u', banco)
  {
    ConsumeAllSpec(u, ls, banco);
    ConsumeAllOldestFirst(u, ls, banco);
  }

  /**
   * All or nothing after a donation, for a stored order: an active order is
   * concluded exactly when every line passes the check, and then each bucket
   * of its bank loses the demand on it (capped by its stock), the oldest
   * units first; when the check fails the order keeps its state and no unit
   * changes.
   */
  lemma DonationAllOrNothing(u: seq<Doacao>, p: Pedido)
    ensures var (u', e) := AttemptAfterDonation(u, p);
      && (p.estado == Ativo ==> (e == Concluido <==> Feasible(u, p.itens, p.banco)))
      && (!Feasible(u, p.itens, p.banco) ==> e == p.estado && u' == u)
      && Evolves(u, u')
      && (forall i :: 0 <= i < |u| && !Requested(u[i], p.itens, p.banco) ==> u'[i] == u[i])
      && (Feasible(u, p.itens, p.banco) ==> e == Concluido && forall tipo, comp ::
            Stock(u', tipo, comp, p.banco) ==
            Stock(u, tipo, comp, p.banco) - Min(Stock(u, tipo, comp, p.banco), Demand(p.itens, tipo, comp)))
      && OldestFirst(u, u', p.banco)
  {
    ConsumeAllSpec(u, p.itens, p.banco);
    ConsumeAllOldestFirst(u, p.itens, p.banco);
  }

  /**
   * The check that fails on one line changes nothing; the donation path
   * concludes a stored order without lines although creation never does.
   */
  lemma EmptyOrderPaths(u: seq<Doacao>, p: Pedido)
    requires p.itens == []
    ensures AttemptAtCreation(u, p.itens, p.banco) == (u, Ativo)
    ensures AttemptAfterDonation(u, p) == (u, Concluido)
  {
  }

  /** The active orders of the bank among the first `n`, in table order. */
  function ActiveCandidates(ps: seq<Pedido>, banco: nat, n: nat): (r: seq<Key>)
    requires n <= |ps|
    ensures forall i :: 0 <= i < |r| ==>
      r[i].pos < n && ps[r[i].pos].estado == Ativo && ps[r[i].pos].banco == banco && r[i].data == ps[r[i].pos].data
    ensures forall i, j :: 0 <= i < j < |r| ==> r[i].pos < r[j].pos
    ensures forall p :: 0 <= p < n && ps[p].estado == Ativo && ps[p].banco == banco ==> Key(ps[p].data, p) in r
  {
    if n == 0 then []
    else
      var prev := ActiveCandidates(ps, banco, n - 1);
      if ps[n - 1].estado == Ativo && ps[n - 1].banco == banco then prev + [Key(ps[n - 1].data, n - 1)] else prev
  }

  /** `Pedido.objects.filter(estado="ativo", banco=banco).order_by('data')`. */
  function ActiveQueue(ps: seq<Pedido>, banco: nat): seq<Key> {
    Sort(ActiveCandidates(ps, banco, |ps|))
  }

  /** The rows of the active orders of a bank. */
  function ActiveRows(ps: seq<Pedido>, banco: nat): set<nat> {
    set j: nat | j < |ps| && ps[j].estado == Ativo && ps[j].banco == banco
  }

  /** The donation pass visits each active order of the bank once, oldest first, and nothing else. */
  lemma ActiveQueueFacts(ps: seq<Pedido>, banco: nat)
    ensures var q := ActiveQueue(ps, banco);
      && DistinctPos(q)
      && Positions(q) == ActiveRows(ps, banco)
      && (forall k :: k in q ==> k.pos < |ps| && ps[k.pos].banco == banco)
      && (forall i, j :: 0 <= i < j < |q| ==> ps[q[i].pos].data <= ps[q[j].pos].data)
  {
    var c := ActiveCandidates(ps, banco, |ps|);
    var q := ActiveQueue(ps, banco);
    assert forall i :: 0 <= i < |q| ==> q[i] in c;
    assert DistinctPos(q);
    forall p | p in ActiveRows(ps, banco) ensures p in Positions(q) {
      assert Key(ps[p].data, p) in q;
    }
  }

  /** The loop over the queued orders after a donation: each is attempted against the stock its predecessors left. */
  function Retrigger(u: seq<Doacao>, ps: seq<Pedido>, queue: seq<Key>): (r: (seq<Doacao>, seq<Pedido>))
    requires forall k :: k in queue ==> k.pos < |ps|
    ensures |r.1| == |ps|
    decreases |queue|
  {
    if queue == [] then (u, ps)
    else
      var j := queue[0].pos;
      var (u1, e) := AttemptAfterDonation(u, ps[j]);
      assert forall k :: k in queue[1..] ==> k in queue;
      Retrigger(u1, ps[j := ps[j].(estado := e)], queue[1..])
  }

  lemma DistinctPosTail(q: seq<Key>)
    requires DistinctPos(q) && q != []
    ensures DistinctPos(q[1..]) && q[0].pos !in Positions(q[1..])
    ensures Positions(q) == {q[0].pos} + Positions(q[1..])
  {
    assert forall k :: k in q[1..] ==> k.pos != q[0].pos by {
      forall k | k in q[1..] ensures k.pos != q[0].pos {
        var y :| 0 <= y < |q[1..]| && q[1..][y] == k;
        assert q[y + 1] == k;
      }
    }
    assert q == [q[0]] + q[1..];
  }

  /**
   * Each queued order is either left as it was or concluded, nothing else
   * about any order changes, orders outside the queue are untouched, units
   * only go from valid to consumed, and units of other banks stay as they were.
   */
  lemma {:induction false} RetriggerSpec(u: seq<Doacao>, ps: seq<Pedido>, queue: seq<Key>, banco: nat)
    requires DistinctPos(queue)
    requires forall k :: k in queue ==> k.pos < |ps| && ps[k.pos].banco == banco
    ensures var (u', ps') := Retrigger(u, ps, queue);
      && Evolves(u, u') && |ps'| == |ps|
      && (forall j :: 0 <= j < |ps| ==>
            ps'[j] == ps[j] || (j in Positions(queue) && ps'[j] == ps[j].(estado := Concluido)))
      && (forall i :: 0 <= i < |u| && u[i].banco != banco ==> u'[i] == u[i])
    decreases |queue|
  {
    if queue != [] {
      var j := queue[0].pos;
      var (u1, e) := AttemptAfterDonation(u, ps[j]);
      var ps1 := ps[j := ps[j].(estado := e)];
      DistinctPosTail(queue);
      var rest := queue[1..];
      assert forall k :: k in rest ==> k in queue && k.pos != j;
      RetriggerSpec(u1, ps1, rest, banco);
      ConsumeAllSpec(u, ps[j].itens, ps[j].banco);
      var (u', ps') := Retrigger(u, ps, queue);
      assert (u', ps') == Retrigger(u1, ps1, rest);
      EvolvesTransitive(u, u1, u');
    }
  }

  /**
   * With every queued order active: each unit the pass consumes belongs to
   * a bucket that an order the pass concluded asks for, so an order left
   * active took nothing, and a pass that concludes no order changes no unit.
   */
  lemma {:induction false} RetriggerConsumption(u: seq<Doacao>, ps: seq<Pedido>, queue: seq<Key>, banco: nat)
    requires DistinctPos(queue)
    requires forall k :: k in queue ==> k.pos < |ps| && ps[k.pos].banco == banco && ps[k.pos].estado == Ativo
    ensures var (u', ps') := Retrigger(u, ps, queue);
      && (forall i :: i in Consumed(u, u') ==>
            exists k :: k in queue && ps'[k.pos].estado == Concluido && Requested(u[i], ps[k.pos].itens, banco))
      && ((forall k :: k in queue ==> ps'[k.pos].estado == Ativo) ==> u' == u)
    decreases |queue|
  {
    if queue != [] {
      var j := queue[0].pos;
      var (u1, e) := AttemptAfterDonation(u, ps[j]);
      var ps1 := ps[j := ps[j].(estado := e)];
      DistinctPosTail(queue);
      var rest := queue[1..];
      assert forall k :: k in rest ==> k in queue && k.pos != j;
      RetriggerSpec(u1, ps1, rest, banco);
      RetriggerConsumption(u1, ps1, rest, banco);
      DonationAllOrNothing(u, ps[j]);
      var (u', ps') := Retrigger(u, ps, queue);
      assert (u', ps') == Retrigger(u1, ps1, rest);
      assert ps'[j] == ps1[j];
      assert queue[0] in queue;
      forall i | i in Consumed(u, u')
        ensures exists k :: k in queue && ps'[k.pos].estado == Concluido && Requested(u[i], ps[k.pos].itens, banco)
      {
        if u1[i] != u[i] {
          assert e == Concluido && Requested(u[i], ps[j].itens, banco);
        } else {
          assert i in Consumed(u1, u');
          var k :| k in rest && ps'[k.pos].estado == Concluido && Requested(u1[i], ps1[k.pos].itens, banco);
          assert ps1[k.pos] == ps[k.pos] && k in queue;
        }
      }
      if forall k :: k in queue ==> ps'[k.pos].estado == Ativo {
        assert e == Ativo && u1 == u;
        assert forall k :: k in rest ==> ps'[k.pos].estado == Ativo;
      }
    }
  }

  /** The oldest queued order is served first: it is concluded exactly when the stock as it stands covers it. */
  lemma RetriggerOldestFirst(u: seq<Doacao>, ps: seq<Pedido>, queue: seq<Key>, banco: nat)
    requires queue != [] && DistinctPos(queue)
    requires forall k :: k in queue ==> k.pos < |ps| && ps[k.pos].banco == banco
    requires ps[queue[0].pos].estado == Ativo
    ensures Retrigger(u, ps, queue).1[queue[0].pos].estado == Concluido <==>
            Feasible(u, ps[queue[0].pos].itens, banco)
  {
    var j := queue[0].pos;
    var (u1, e) := AttemptAfterDonation(u, ps[j]);
    var ps1 := ps[j := ps[j].(estado := e)];
    DistinctPosTail(queue);
    var rest := queue[1..];
    assert forall k :: k in rest ==> k in queue && k.pos != j;
    RetriggerSpec(u1, ps1, rest, banco);
  }

  /**
   * The pass after a donation to `banco`: orders that are not active, or
   * belong to another bank, are never touched; an active order of the bank
   * either stays as it was or is concluded; units only go from valid to
   * consumed and units of other banks stay as they were.
   */
  lemma DonationPassSpec(u: seq<Doacao>, ps: seq<Pedido>, banco: nat)
    ensures forall k :: k in ActiveQueue(ps, banco) ==> k.pos < |ps|
    ensures var (u', ps') := Retrigger(u, ps, ActiveQueue(ps, banco));
      && Evolves(u, u') && |ps'| == |ps|
      && (forall j :: 0 <= j < |ps| && (ps[j].estado != Ativo || ps[j].banco != banco) ==> ps'[j] == ps[j])
      && (forall j :: 0 <= j < |ps| ==> ps'[j] == ps[j] || ps'[j] == ps[j].(estado := Concluido))
      && (forall i :: 0 <= i < |u| && u[i].banco != banco ==> u'[i] == u[i])
  {
    ActiveQueueFacts(ps, banco);
    RetriggerSpec(u, ps, ActiveQueue(ps, banco), banco);
  }

  /**
   * What the pass after a donation consumes: every consumed unit is asked
   * for by an active order of the bank that the pass concluded, and a pass
   * that concludes no order consumes nothing.
   */
  lemma DonationPassConsumption(u: seq<Doacao>, ps: seq<Pedido>, banco: nat)
    ensures forall k :: k in ActiveQueue(ps, banco) ==> k.pos < |ps|
    ensures var (u', ps') := Retrigger(u, ps, ActiveQueue(ps, banco));
      && (forall i :: i in Consumed(u, u') ==>
            exists j :: 0 <= j < |ps| && ps[j].estado == Ativo && ps[j].banco == banco &&
                        ps'[j].estado == Concluido && Requested(u[i], ps[j].itens, banco))
      && ((forall j :: 0 <= j < |ps| ==> ps'[j].estado != Concluido) ==> u' == u)
  {
    var q := ActiveQueue(ps, banco);
    ActiveQueueFacts(ps, banco);
    assert forall k :: k in q ==> k.pos in Positions(q);
    RetriggerSpec(u, ps, q, banco);
    RetriggerConsumption(u, ps, q, banco);
    var (u', ps') := Retrigger(u, ps, q);
    forall i | i in Consumed(u, u')
      ensures exists j :: 0 <= j < |ps| && ps[j].estado == Ativo && ps[j].banco == banco &&
                          ps'[j].estado == Concluido && Requested(u[i], ps[j].itens, banco)
    {
      var k :| k in q && ps'[k.pos].estado == Concluido && Requested(u[i], ps[k.pos].itens, banco);
      assert k.pos in ActiveRows(ps, banco);
    }
    if forall j :: 0 <= j < |ps| ==> ps'[j].estado != Concluido {
      forall k | k in q ensures ps'[k.pos].estado == Ativo {
        assert k.pos in ActiveRows(ps, banco);
      }
    }
  }
}
