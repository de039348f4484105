/** SR/Projet/readcmd.c, readcmd: words parsed into commands, redirections and flags. */
module ReadCmds {
  import opened Indicatrices
  import opened Options

  datatype Erreur = OneInput | InputMissing | OneOutput | OutputMissing | MisplacedPipe

  type Commande = seq<string>

  // ---- the loop, as a function of what it has gathered ----

  datatype Etat = Etat(entree: Option<string>, sortie: Option<string>, seq_: seq<Commande>, cmd: Commande, background: bool)

  datatype Issue = Fin(e: Etat) | Faute(err: Erreur, background: bool)

  /** The character the switch looks at; an empty word falls in its default case. */
  function Tete(w: string): char { if w == [] then '\0' else w[0] }

  function Suite(e: Etat, words: seq<string>): Issue
    decreases |words|
  {
    if words == [] then
      if e.cmd != [] then Fin(e.(seq_ := e.seq_ + [e.cmd], cmd := []))
      else if e.seq_ != [] then Faute(MisplacedPipe, e.background)
      else Fin(e)
    else if Tete(words[0]) == '<' then
      if e.entree.Some? then Faute(OneInput, e.background)
      else if |words| == 1 then Faute(InputMissing, e.background)
      else Suite(e.(entree := Some(words[1])), words[2..])
    else if Tete(words[0]) == '>' then
      if e.sortie.Some? then Faute(OneOutput, e.background)
      else if |words| == 1 then Faute(OutputMissing, e.background)
      else Suite(e.(sortie := Some(words[1])), words[2..])
    else if Tete(words[0]) == '|' then
      if e.cmd == [] then Faute(MisplacedPipe, e.background)
      else Suite(e.(seq_ := e.seq_ + [e.cmd], cmd := []), words[1..])
    else if Tete(words[0]) == '&' then
      Suite(e.(background := true), words[1..])
    else
      Suite(e.(cmd := e.cmd + [words[0]]), words[1..])
  }

  const DEBUT := Etat(None, None, [], [], false)

  function Parse(words: seq<string>): Issue { Suite(DEBUT, words) }

  /** The structure readcmd returns; seq_ is the null pointer after an error. */
  class CmdLine {
    var err: Option<Erreur>
    var entree: Option<string>
    var sortie: Option<string>
    var seq_: Option<seq<Commande>>
    var background: bool

    constructor ()
      ensures err.None? && entree.None? && sortie.None? && seq_.None? && !background
    {
      err, entree, sortie, seq_, background := None, None, None, None, false;
    }

    /** What the structure holds when the parse ends this way. */
    ghost predicate Holds(r: Issue)
      reads this
    {
      match r
      case Fin(e) => err.None? && entree == e.entree && sortie == e.sortie && seq_ == Some(e.seq_) && background == e.background
      case Faute(f, b) => err == Some(f) && entree.None? && sortie.None? && seq_.None? && background == b
    }

    method Erreur(f: Erreur)
      modifies this
      ensures Holds(Faute(f, old(background)))
    {
      err := Some(f);
      entree, sortie, seq_ := None, None, None;
    }

    /** The while loop of readcmd over the words, then its check of the last command. */
    method Lire(words: seq<string>)
      modifies this
      ensures match Parse(words)
              case Fin(e) =>
                err == None && entree == e.entree && sortie == e.sortie && seq_ == Some(e.seq_) && background == e.background
              case Faute(f, b) => err == Some(f) && entree == None && sortie == None && seq_ == None && background == b
    {
      err, entree, sortie, seq_, background := None, None, None, None, false;
      var cmd: Commande := [];
      var liste: seq<Commande> := [];
      var i := 0;
      while i < |words|
        invariant i <= |words| && err.None?
        invariant Suite(Etat(entree, sortie, liste, cmd, background), words[i..]) == Parse(words)
      {
        var w := words[i];
        i := i + 1;
        assert words[i - 1..][1..] == words[i..];
        assert i < |words| ==> words[i - 1..][2..] == words[i + 1..] && words[i - 1..][1] == words[i];
        if Tete(w) == '<' {
          if entree.Some? { Erreur(OneInput); return; }
          if i == |words| { Erreur(InputMissing); return; }
          entree := Some(words[i]);
          i := i + 1;
        } else if Tete(w) == '>' {
          if sortie.Some? { Erreur(OneOutput); return; }
          if i == |words| { Erreur(OutputMissing); return; }
          sortie := Some(words[i]);
          i := i + 1;
        } else if Tete(w) == '|' {
          if cmd == [] { Erreur(MisplacedPipe); return; }
          liste, cmd := liste + [cmd], [];
        } else if Tete(w) == '&' {
          background := true;
        } else {
          cmd := cmd + [w];
        }
      }
      if cmd != [] {
        liste := liste + [cmd];
      } else if liste != [] {
        Erreur(MisplacedPipe);
        return;
      }
      seq_ := Some(liste);
    }
  }

  // ---- the grammar ----

  /** Each operator word of the line, a redirection with its target, or an argument. */
  datatype Item = Entree(op: string, cible: string) | Sortie(op: string, cible: string) | Tube(op: string) | Fond(op: string) | Arg(w: string)

  predicate Plain(w: string) { Tete(w) !in {'<', '>', '|', '&'} }

  predicate Typed(it: Item) {
    match it
    case Entree(op, _) => Tete(op) == '<'
    case Sortie(op, _) => Tete(op) == '>'
    case Tube(op) => Tete(op) == '|'
    case Fond(op) => Tete(op) == '&'
    case Arg(w) => Plain(w)
  }

  predicate AllTyped(items: seq<Item>) {
    forall k :: 0 <= k < |items| ==> Typed(items[k])
  }

  function WordsOf(it: Item): seq<string> {
    match it
    case Entree(op, c) => [op, c]
    case Sortie(op, c) => [op, c]
    case Tube(op) => [op]
    case Fond(op) => [op]
    case Arg(w) => [w]
  }

  function Flatten(items: seq<Item>): seq<string> {
    if items == [] then [] else WordsOf(items[0]) + Flatten(items[1..])
  }

  function Entrees(items: seq<Item>): seq<string> {
    if items == [] then [] else (if items[0].Entree? then [items[0].cible] else []) + Entrees(items[1..])
  }

  function Sorties(items: seq<Item>): seq<string> {
    if items == [] then [] else (if items[0].Sortie? then [items[0].cible] else []) + Sorties(items[1..])
  }

  function Args(items: seq<Item>): seq<string> {
    if items == [] then [] else (if items[0].Arg? then [items[0].w] else []) + Args(items[1..])
  }

  predicate Detache(items: seq<Item>) {
    exists k :: 0 <= k < |items| && items[k].Fond?
  }

  /** The arguments between pipes, the first group continuing cmd. */
  function Groupes(cmd: Commande, items: seq<Item>): (g: seq<Commande>)
    ensures g != []
    decreases |items|
  {
    if items == [] then [cmd]
    else if items[0].Tube? then [cmd] + Groupes([], items[1..])
    else if items[0].Arg? then Groupes(cmd + [items[0].w], items[1..])
    else Groupes(cmd, items[1..])
  }

  predicate NonVides(g: seq<Commande>) {
    forall k :: 0 <= k < |g| ==> g[k] != []
  }

  /** At most one redirection each way, and pipes only between commands that are not empty. */
  predicate Fits(items: seq<Item>) {
    && |Entrees(items)| <= 1 && |Sorties(items)| <= 1
    && (NonVides(Groupes([], items)) || Groupes([], items) == [[]])
  }

  function Premier(s: seq<string>): Option<string> {
    if s == [] then None else Some(s[0])
  }

  function Commandes(items: seq<Item>): seq<Commande> {
    if Groupes([], items) == [[]] then [] else Groupes([], items)
  }

  /** The structure a fitting line describes. */
  function Sens(items: seq<Item>): Etat {
    Etat(Premier(Entrees(items)), Premier(Sorties(items)), Commandes(items), [], Detache(items))
  }

  // ---- the loop reads one item at a time ----

  predicate Etats(e: Etat, items: seq<Item>) {
    && |Entrees(items)| + Un(e.entree.Some?) <= 1
    && |Sorties(items)| + Un(e.sortie.Some?) <= 1
    && (NonVides(Groupes(e.cmd, items)) || (e.seq_ == [] && Groupes(e.cmd, items) == [[]]))
  }

  function Ajoute(e: Etat, items: seq<Item>): Etat {
    Etat(if e.entree.Some? then e.entree else Premier(Entrees(items)),
         if e.sortie.Some? then e.sortie else Premier(Sorties(items)),
         if Groupes(e.cmd, items) == [[]] then e.seq_ else e.seq_ + Groupes(e.cmd, items),
         [], e.background || Detache(items))
  }

  /** The state after one item that raises no error. */
  function Apres(e: Etat, it: Item): Etat {
    match it
    case Entree(_, c) => e.(entree := Some(c))
    case Sortie(_, c) => e.(sortie := Some(c))
    case Tube(_) => e.(seq_ := e.seq_ + [e.cmd], cmd := [])
    case Fond(_) => e.(background := true)
    case Arg(w) => e.(cmd := e.cmd + [w])
  }

  predicate Bloque(e: Etat, it: Item) {
    (it.Entree? && e.entree.Some?) || (it.Sortie? && e.sortie.Some?) || (it.Tube? && e.cmd == [])
  }

  lemma SuiteItem(e: Etat, it: Item, rest: seq<string>)
    requires Typed(it)
    ensures Bloque(e, it) ==> Suite(e, WordsOf(it) + rest).Faute?
    ensures !Bloque(e, it) ==> Suite(e, WordsOf(it) + rest) == Suite(Apres(e, it), rest)
  {
  }

  lemma DetacheTail(items: seq<Item>)
    requires items != []
    ensures Detache(items) <==> items[0].Fond? || Detache(items[1..])
  {
  }

  lemma NonVidesCons(cmd: Commande, g: seq<Commande>)
    ensures NonVides([cmd] + g) <==> cmd != [] && NonVides(g)
  {
    if NonVides([cmd] + g) {
      assert ([cmd] + g)[0] == cmd;
      assert forall k :: 0 <= k < |g| ==> ([cmd] + g)[k + 1] == g[k];
    }
  }

  lemma TubeTail(e: Etat, g: seq<Commande>)
    requires e.cmd != [] && g != []
    ensures [e.cmd] + g != [[]]
    ensures NonVides([e.cmd] + g) || (e.seq_ == [] && [e.cmd] + g == [[]]) <==> NonVides(g)
    ensures NonVides(g) ==> g != [[]] && e.seq_ + ([e.cmd] + g) == e.seq_ + [e.cmd] + g
  {
    NonVidesCons(e.cmd, g);
    assert ([e.cmd] + g)[0] != [];
    assert g == [[]] ==> g[0] == [];
  }

  lemma TubeGroupes(e: Etat, items: seq<Item>)
    requires items != [] && items[0].Tube? && !Bloque(e, items[0]) && NonVides(e.seq_)
    ensures Etats(e, items) <==> Etats(Apres(e, items[0]), items[1..])
    ensures Etats(e, items) ==> Ajoute(e, items) == Ajoute(Apres(e, items[0]), items[1..])
  {
    DetacheTail(items);
    TubeTail(e, Groupes([], items[1..]));
  }

  lemma GroupesTail(e: Etat, items: seq<Item>)
    requires items != [] && !Bloque(e, items[0]) && NonVides(e.seq_)
    ensures Etats(e, items) <==> Etats(Apres(e, items[0]), items[1..])
    ensures Etats(e, items) ==> Ajoute(e, items) == Ajoute(Apres(e, items[0]), items[1..])
  {
    match items[0]
    case Tube(_) => TubeGroupes(e, items);
    case _ => DetacheTail(items);
  }

  /** The loop accepts the words of these items exactly when they fit, and gathers what they mean. */
  lemma {:induction false} SuiteItems(e: Etat, items: seq<Item>)
    requires AllTyped(items) && NonVides(e.seq_)
    ensures Suite(e, Flatten(items)).Fin? <==> Etats(e, items)
    ensures Etats(e, items) ==> Suite(e, Flatten(items)) == Fin(Ajoute(e, items))
    decreases |items|
  {
    if items == [] {
      assert e.cmd == [] ==> [e.cmd][0] == [];
    } else {
      SuiteItem(e, items[0], Flatten(items[1..]));
      if Bloque(e, items[0]) {
        BloqueNeTientPas(e, items);
      } else {
        GroupesTail(e, items);
        SuiteItems(Apres(e, items[0]), items[1..]);
      }
    }
  }

  lemma BloqueNeTientPas(e: Etat, items: seq<Item>)
    requires items != [] && Bloque(e, items[0])
    ensures !Etats(e, items)
  {
    if items[0].Tube? {
      assert Groupes(e.cmd, items)[0] == [] && |Groupes(e.cmd, items)| >= 2;
    }
  }

  /** An accepted word list is the words of some items. */
  lemma {:induction false} ItemsOf(e: Etat, words: seq<string>) returns (items: seq<Item>)
    requires Suite(e, words).Fin?
    ensures AllTyped(items) && Flatten(items) == words
    decreases |words|
  {
    if words == [] {
      items := [];
    } else {
      var it := if Tete(words[0]) == '<' then Entree(words[0], words[1])
                else if Tete(words[0]) == '>' then Sortie(words[0], words[1])
                else if Tete(words[0]) == '|' then Tube(words[0])
                else if Tete(words[0]) == '&' then Fond(words[0])
                else Arg(words[0]);
      var n := |WordsOf(it)|;
      assert words == WordsOf(it) + words[n..];
      SuiteItem(e, it, words[n..]);
      var rest := ItemsOf(Apres(e, it), words[n..]);
      items := [it] + rest;
      assert items[1..] == rest;
    }
  }

  ghost predicate Derives(items: seq<Item>, words: seq<string>) {
    AllTyped(items) && Flatten(items) == words
  }

  lemma EtatsIsFits(items: seq<Item>)
    ensures Etats(DEBUT, items) <==> Fits(items)
    ensures Fits(items) ==> Ajoute(DEBUT, items) == Sens(items)
  {
  }

  /** readcmd accepts a word list exactly when it derives from the grammar. */
  lemma AcceptsIff(words: seq<string>)
    ensures Parse(words).Fin? <==> exists items :: Derives(items, words) && Fits(items)
  {
    if items :| Derives(items, words) && Fits(items) {
      SuiteItems(DEBUT, items);
      EtatsIsFits(items);
    }
    if Parse(words).Fin? {
      var items := ItemsOf(DEBUT, words);
      SuiteItems(DEBUT, items);
      EtatsIsFits(items);
      assert Derives(items, words);
    }
  }

  /** What an accepted line means: its redirections, its commands and its flag. */
  lemma AcceptedMeans(items: seq<Item>, words: seq<string>)
    requires Derives(items, words) && Fits(items)
    ensures Parse(words) == Fin(Sens(items))
    ensures NonVides(Commandes(items)) && Concat(Commandes(items)) == Args(items)
  {
    SuiteItems(DEBUT, items);
    EtatsIsFits(items);
    GroupesConcat([], items);
  }

  function Concat(g: seq<Commande>): seq<string> {
    if g == [] then [] else g[0] + Concat(g[1..])
  }

  lemma ArgDevant(cmd: Commande, w: string, args: seq<string>)
    ensures cmd + [w] + args == cmd + ([w] + args)
  {
  }

  /** Splitting at the pipes loses no argument and keeps their order. */
  lemma {:induction false} GroupesConcat(cmd: Commande, items: seq<Item>)
    ensures Concat(Groupes(cmd, items)) == cmd + Args(items)
    decreases |items|
  {
    if items == [] {
      assert Concat([cmd]) == cmd + Concat([]);
    } else if items[0].Tube? {
      GroupesConcat([], items[1..]);
      assert Groupes(cmd, items)[1..] == Groupes([], items[1..]);
    } else if items[0].Arg? {
      GroupesConcat(cmd + [items[0].w], items[1..]);
      ArgDevant(cmd, items[0].w, Args(items[1..]));
    } else {
      GroupesConcat(cmd, items[1..]);
    }
  }

  // ---- which error is reported ----

  /** No error so far: the next word may open a redirection only once each way, or a command behind one that is not empty. */
  ghost predicate EnOrdre(items: seq<Item>) {
    && |Entrees(items)| <= 1 && |Sorties(items)| <= 1
    && NonVides(GroupesFinis(items))
  }

  function GroupesFinis(items: seq<Item>): seq<Commande> {
    Groupes([], items)[..|Groupes([], items)| - 1]
  }

  function DernierGroupe(items: seq<Item>): Commande {
    Groupes([], items)[|Groupes([], items)| - 1]
  }

  /** Behind these items, the words rest begin with, or lack, what this error is about. */
  ghost predicate Cause(f: Erreur, items: seq<Item>, rest: seq<string>) {
    match f
    case OneInput => rest != [] && Tete(rest[0]) == '<' && Entrees(items) != []
    case InputMissing => |rest| == 1 && Tete(rest[0]) == '<' && Entrees(items) == []
    case OneOutput => rest != [] && Tete(rest[0]) == '>' && Sorties(items) != []
    case OutputMissing => |rest| == 1 && Tete(rest[0]) == '>' && Sorties(items) == []
    case MisplacedPipe =>
      DernierGroupe(items) == [] && if rest == [] then |Groupes([], items)| > 1 else Tete(rest[0]) == '|'
  }

  ghost predicate Explique(f: Erreur, b: bool, words: seq<string>, items: seq<Item>, rest: seq<string>) {
    AllTyped(items) && words == Flatten(items) + rest && EnOrdre(items) && Cause(f, items, rest) && b == Detache(items)
  }

  /** What the loop has gathered behind items that raise no error. */
  function EtatDe(items: seq<Item>): Etat {
    Etat(Premier(Entrees(items)), Premier(Sorties(items)), GroupesFinis(items), DernierGroupe(items), Detache(items))
  }

  lemma {:induction false} EntreesPlus(items: seq<Item>, it: Item)
    ensures Entrees(items + [it]) == Entrees(items) + (if it.Entree? then [it.cible] else [])
    decreases |items|
  {
    if items == [] {
      assert items + [it] == [it] && [it][1..] == [];
    } else {
      var plus, rest := items + [it], items[1..];
      assert plus[0] == items[0] && plus[1..] == rest + [it];
      EntreesPlus(rest, it);
    }
  }

  lemma {:induction false} SortiesPlus(items: seq<Item>, it: Item)
    ensures Sorties(items + [it]) == Sorties(items) + (if it.Sortie? then [it.cible] else [])
    decreases |items|
  {
    if items == [] {
      assert items + [it] == [it] && [it][1..] == [];
    } else {
      var plus, rest := items + [it], items[1..];
      assert plus[0] == items[0] && plus[1..] == rest + [it];
      SortiesPlus(rest, it);
    }
  }

  lemma {:induction false} FlattenEnd(items: seq<Item>, it: Item)
    ensures Flatten(items + [it]) == Flatten(items) + WordsOf(it)
    decreases |items|
  {
    if items == [] {
      assert items + [it] == [it] && [it][1..] == [];
    } else {
      var plus, rest := items + [it], items[1..];
      assert plus[0] == items[0] && plus[1..] == rest + [it];
      FlattenEnd(rest, it);
    }
  }

  lemma {:induction false} GroupesPlus(cmd: Commande, items: seq<Item>, it: Item)
    ensures var g, h := Groupes(cmd, items), Groupes(cmd, items + [it]);
            h == if it.Tube? then g + [[]]
                 else if it.Arg? then g[..|g| - 1] + [g[|g| - 1] + [it.w]]
                 else g
    decreases |items|
  {
    if items == [] {
      assert items + [it] == [it] && [it][1..] == [];
    } else {
      assert (items + [it])[1..] == items[1..] + [it];
      match items[0]
      case Tube(_) => GroupesPlus([], items[1..], it);
      case Arg(w) => GroupesPlus(cmd + [w], items[1..], it);
      case _ => GroupesPlus(cmd, items[1..], it);
    }
  }

  lemma DetachePlus(items: seq<Item>, it: Item)
    ensures Detache(items + [it]) <==> Detache(items) || it.Fond?
  {
    var plus := items + [it];
    if k :| 0 <= k < |items| && items[k].Fond? { assert plus[k].Fond?; }
    if it.Fond? { assert plus[|items|].Fond?; }
    if k :| 0 <= k < |plus| && plus[k].Fond? { assert k < |items| ==> items[k].Fond?; }
  }

  lemma NonVidesPlus(g: seq<Commande>, cmd: Commande)
    ensures NonVides(g + [cmd]) <==> NonVides(g) && cmd != []
  {
    if NonVides(g + [cmd]) {
      assert (g + [cmd])[|g|] == cmd;
      assert forall k :: 0 <= k < |g| ==> (g + [cmd])[k] == g[k];
    }
  }

  lemma FinisPlus(items: seq<Item>, it: Item)
    ensures GroupesFinis(items + [it]) == GroupesFinis(items) + if it.Tube? then [DernierGroupe(items)] else []
    ensures DernierGroupe(items + [it])
            == if it.Tube? then [] else if it.Arg? then DernierGroupe(items) + [it.w] else DernierGroupe(items)
  {
    var g := Groupes([], items);
    GroupesPlus([], items, it);
    assert g[..|g| - 1] + [g[|g| - 1]] == g;
  }

  lemma NonVidesFinis(items: seq<Item>, it: Item)
    ensures NonVides(GroupesFinis(items + [it])) <==> NonVides(GroupesFinis(items)) && !(it.Tube? && DernierGroupe(items) == [])
  {
    FinisPlus(items, it);
    NonVidesPlus(GroupesFinis(items), DernierGroupe(items));
    assert GroupesFinis(items) + [] == GroupesFinis(items);
  }

  /** One more item raises no error exactly when it does not block. */
  lemma EnOrdrePlus(items: seq<Item>, it: Item)
    ensures EnOrdre(items + [it]) <==> EnOrdre(items) && !Bloque(EtatDe(items), it)
  {
    EntreesPlus(items, it);
    SortiesPlus(items, it);
    NonVidesFinis(items, it);
  }

  /** It is then gathered. */
  lemma EtatPlus(items: seq<Item>, it: Item)
    requires EnOrdre(items + [it])
    ensures EtatDe(items + [it]) == Apres(EtatDe(items), it)
  {
    EntreesPlus(items, it);
    SortiesPlus(items, it);
    FinisPlus(items, it);
    DetachePlus(items, it);
    assert GroupesFinis(items) + [] == GroupesFinis(items);
  }

  lemma FlattenPlus(items: seq<Item>, it: Item, rest: seq<string>)
    ensures Flatten(items + [it]) + rest == Flatten(items) + (WordsOf(it) + rest)
  {
    FlattenEnd(items, it);
  }

  lemma {:induction false} SuiteEnOrdre(items: seq<Item>, rest: seq<string>)
    requires AllTyped(items) && EnOrdre(items)
    ensures Suite(DEBUT, Flatten(items) + rest) == Suite(EtatDe(items), rest)
    decreases |items|
  {
    if items == [] {
      assert Flatten(items) + rest == rest;
    } else {
      var init, it := items[..|items| - 1], items[|items| - 1];
      assert items == init + [it];
      EnOrdrePlus(init, it);
      EtatPlus(init, it);
      FlattenPlus(init, it, rest);
      SuiteEnOrdre(init, WordsOf(it) + rest);
      SuiteItem(EtatDe(init), it, rest);
    }
  }

  lemma CauseFaute(f: Erreur, items: seq<Item>, rest: seq<string>)
    requires EnOrdre(items) && Cause(f, items, rest)
    ensures Suite(EtatDe(items), rest) == Faute(f, Detache(items))
  {
  }

  /** The item that these words begin with, when they begin with one. */
  function ItemDeTete(words: seq<string>): Item
    requires words != [] && (Tete(words[0]) == '<' || Tete(words[0]) == '>' ==> |words| > 1)
  {
    if Tete(words[0]) == '<' then Entree(words[0], words[1])
    else if Tete(words[0]) == '>' then Sortie(words[0], words[1])
    else if Tete(words[0]) == '|' then Tube(words[0])
    else if Tete(words[0]) == '&' then Fond(words[0])
    else Arg(words[0])
  }

  /** The words lack an item, or begin with one that blocks. */
  predicate Arret(e: Etat, words: seq<string>) {
    || words == []
    || (|words| == 1 && (Tete(words[0]) == '<' || Tete(words[0]) == '>'))
    || Bloque(e, ItemDeTete(words))
  }

  lemma ItemEnTete(words: seq<string>)
    requires words != [] && (Tete(words[0]) == '<' || Tete(words[0]) == '>' ==> |words| > 1)
    ensures var it := ItemDeTete(words); Typed(it) && |WordsOf(it)| <= |words| && words == WordsOf(it) + words[|WordsOf(it)|..]
  {
  }

  lemma ArretCause(items: seq<Item>, words: seq<string>)
    requires EnOrdre(items) && Arret(EtatDe(items), words) && Suite(EtatDe(items), words).Faute?
    ensures Cause(Suite(EtatDe(items), words).err, items, words)
    ensures Suite(EtatDe(items), words).background == Detache(items)
  {
  }

  lemma {:induction false} FauteExplique(items: seq<Item>, words: seq<string>) returns (tous: seq<Item>, rest: seq<string>)
    requires AllTyped(items) && EnOrdre(items) && Suite(EtatDe(items), words).Faute?
    ensures var r := Suite(EtatDe(items), words);
            Explique(r.err, r.background, Flatten(items) + words, tous, rest)
    decreases |words|
  {
    if Arret(EtatDe(items), words) {
      tous, rest := items, words;
      ArretCause(items, words);
    } else {
      ItemEnTete(words);
      var it := ItemDeTete(words);
      var suite := words[|WordsOf(it)|..];
      EnOrdrePlus(items, it);
      EtatPlus(items, it);
      SuiteItem(EtatDe(items), it, suite);
      FlattenPlus(items, it, suite);
      tous, rest := FauteExplique(items + [it], suite);
    }
  }

  /** Each error, with the flag seen so far, is reported exactly when the first items in order stop at its cause. */
  lemma FauteSsi(words: seq<string>, f: Erreur, b: bool)
    ensures Parse(words) == Faute(f, b) <==> exists items, rest :: Explique(f, b, words, items, rest)
  {
    if items, rest :| Explique(f, b, words, items, rest) {
      SuiteEnOrdre(items, rest);
      CauseFaute(f, items, rest);
    }
    if Parse(words) == Faute(f, b) {
      assert EtatDe([]) == DEBUT;
      var items, rest := FauteExplique([], words);
      assert Flatten([]) + words == words;
    }
  }

  /** The end of a line that has a file and a first command. */
  lemma FinExemple(e: Etat)
    requires e == DEBUT.(entree := Some("f"), seq_ := [["cat", "-n"]])
    ensures Suite(e, ["wc", "&", ">", "g"]) == Fin(Etat(Some("f"), Some("g"), [["cat", "-n"], ["wc"]], [], true))
  {
    assert [">", "g"][2..] == [] && ["&", ">", "g"][1..] == [">", "g"] && ["wc", "&", ">", "g"][1..] == ["&", ">", "g"];
    assert e.cmd + ["wc"] == ["wc"];
    assert Suite(e, ["wc", "&", ">", "g"]) == Suite(e.(cmd := ["wc"]), ["&", ">", "g"]);
  }

  /** One line with everything in it. */
  lemma Exemple()
    ensures Parse(["<", "f", "cat", "-n", "|", "wc", "&", ">", "g"])
            == Fin(Etat(Some("f"), Some("g"), [["cat", "-n"], ["wc"]], [], true))
  {
    var e := DEBUT.(entree := Some("f"));
    var tube := ["|", "wc", "&", ">", "g"];
    assert tube[1..] == ["wc", "&", ">", "g"] && e.seq_ + [["cat", "-n"]] == [["cat", "-n"]];
    FinExemple(e.(seq_ := [["cat", "-n"]]));
    assert ["cat", "-n", "|", "wc", "&", ">", "g"][1..] == ["-n"] + tube && (["-n"] + tube)[1..] == tube;
    assert e.cmd + ["cat"] == ["cat"] && ["cat"] + ["-n"] == ["cat", "-n"];
    assert Suite(e.(cmd := ["cat"]), ["-n"] + tube) == Suite(e.(cmd := ["cat", "-n"]), tube);
    assert ["<", "f", "cat", "-n", "|", "wc", "&", ">", "g"][2..] == ["cat", "-n", "|", "wc", "&", ">", "g"];
  }
}
