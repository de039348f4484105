/** SR/projet_ftp/stock_ip.c: the linked list of interrupted transfers. */
module Registres {
  import opened Options

  datatype Entree = Entree(ip: string, nb_bytes: int, filename: string)

  /** Where the first entry of this client stands, or the length of the list. */
  function Rang(l: seq<Entree>, ip: string): (k: nat)
    ensures k <= |l| && (k < |l| ==> l[k].ip == ip)
    ensures forall i :: 0 <= i < k ==> l[i].ip != ip
  {
    if l == [] || l[0].ip == ip then 0 else 1 + Rang(l[1..], ip)
  }

  predicate Contient(l: seq<Entree>, ip: string) {
    Rang(l, ip) < |l|
  }

  /** A link is never changed once built; only the head of the list moves. */
  class Noeud {
    const entree: Entree
    const next: Noeud?
    ghost const suite: seq<Entree>

    ghost predicate Valid()
      decreases |suite|
    {
      && suite == [entree] + (if next == null then [] else next.suite)
      && (next != null ==> next.Valid())
    }

    constructor (entree: Entree, next: Noeud?)
      requires next != null ==> next.Valid()
      ensures Valid() && this.entree == entree && this.next == next
    {
      this.entree := entree;
      this.next := next;
      this.suite := [entree] + if next == null then [] else next.suite;
    }
  }

  class Registre {
    var head: Noeud?

    ghost predicate Valid()
      reads this
    {
      head != null ==> head.Valid()
    }

    ghost function Contenu(): seq<Entree>
      reads this
    {
      if head == null then [] else head.suite
    }

    constructor ()
      ensures Valid() && Contenu() == []
    {
      head := null;
    }

    /** The latest interruption comes first. */
    method Add(ip: string, nb: int, file: string)
      requires Valid()
      modifies this
      ensures Valid() && Contenu() == [Entree(ip, nb, file)] + old(Contenu())
    {
      head := new Noeud(Entree(ip, nb, file), head);
    }

    /** Taking out the head; remove_by_ip does this when the head is the client's. */
    method RemoveFirst()
      requires Valid() && Contenu() != []
      modifies this
      ensures Valid() && Contenu() == old(Contenu())[1..]
    {
      head := head.next;
    }

    /** The walk shared by file_name, bytes and contain. */
    method Chercher(ip: string) returns (n: Noeud?)
      requires Valid()
      ensures n != null <==> Contient(Contenu(), ip)
      ensures n != null ==> n.entree == Contenu()[Rang(Contenu(), ip)]
    {
      n := head;
      ghost var k := 0;
      assert Contenu()[0..] == Contenu();
      while n != null && n.entree.ip != ip
        invariant 0 <= k <= |Contenu()|
        invariant n != null ==> n.Valid()
        invariant Contenu()[k..] == if n == null then [] else n.suite
        invariant Rang(Contenu(), ip) == k + Rang(Contenu()[k..], ip)
        decreases |Contenu()| - k
      {
        assert Contenu()[k..][1..] == Contenu()[k + 1..];
        n := n.next;
        k := k + 1;
      }
    }

    method FileName(ip: string) returns (file: Option<string>)
      requires Valid()
      ensures file == if Contient(Contenu(), ip) then Some(Contenu()[Rang(Contenu(), ip)].filename) else None
    {
      var n := Chercher(ip);
      return if n == null then None else Some(n.entree.filename);
    }

    method Bytes(ip: string) returns (nb: int)
      requires Valid()
      ensures nb == if Contient(Contenu(), ip) then Contenu()[Rang(Contenu(), ip)].nb_bytes else -1
    {
      var n := Chercher(ip);
      return if n == null then -1 else n.entree.nb_bytes;
    }

    method Contain(ip: string) returns (present: bool)
      requires Valid()
      ensures present <==> Contient(Contenu(), ip)
    {
      var n := Chercher(ip);
      return n != null;
    }
  }
}
