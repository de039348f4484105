# Algorithms and protocols of a coursework repository, modelled and proved in Dafny

`dafny verify dfyconfig.toml` checks every file. Each module follows one source file or one component.

| modules | component |
|---|---|
| `Connectivity`, `Aretes`, `Forests`, `Partitions`, `Graphes`, `Kruskal`, `GraphesPonderes`, `KruskalOutcome` | minimum spanning trees over union-find (`RO/APNEE2`) |
| `KruskalRepaired` | **not** the repository's loop: the same loop with the rejected edge dropped |
| `SousSeq` | longest common subsequence (`Algo6/TD2_4`) |
| `Motif` | naive and Karp-Rabin pattern search (`Algo6/APNEE1`) |
| `Cases`, `Terrains`, `Chemins`, `Jeux`, `Moteurs` | the Sokoban engine (`Algo6/Sokoban`) |
| `Decimals`, `ArcGraphes`, `ArcTextes`, `Couplages`, `GraphesArcs` | arc files and the matching test (`Algo6/APNEE4`) |
| `Lexer`, `ReadCmds`, `JobLines` | the shell's command lines (`SR/Projet`) |
| `RioPackage` | the robust I/O package (`SR/TP7`) |
| `Registres`, `Transferts` | resumable file transfer (`SR/projet_ftp`) |
| `Peterson`, `TellWait` | mutual exclusion and the signal rendezvous (`SR/TP5`, `SR/TD4`) |
| `Runs`, `Outcomes`, `Options`, `Indicatrices`, `Decoupes` | repeated steps; Java results and exceptions; absent values; counting; joined texts |

## Findings

The code is modelled as it is. These behaviours are not what a caller would expect; each has a concrete run or graph,
and its exact condition.

- `kruskal` promises a minimum spanning tree, but tests "every vertex is touched", not "connected", and never removes a
  rejected edge. It returns exactly when some k lightest edges form a forest that touches every vertex (`ReturnsIff`).
  It returns a minimum spanning forest exactly when the r lightest edges, r being the number a spanning forest has,
  form a forest that touches every vertex and r - 1 of them do not (`ReturnsMinimumForestIff`; for connected graphs
  `ReturnsMinimumTreeIff`). `LoopNeverReturns` and `PathReturnsTwoTrees` are concrete failures. What it keeps on every
  graph and after every number of passes is `EveryLoopHead`.
- A push in Sokoban copies the pusher's whole cell forward, goal included. Goals stay in place exactly when the three
  cells in line are all goals or all plain (`PousseeGardeLesButsSsi`). On the default board the push takes the only goal
  away (`PousseeEffaceUnBut`); a pusher that pushes off a goal makes a second one (`PousseeDoubleUnBut`).
- A silent client is registered exactly when a chunk of a file of at least 8192 bytes was unacknowledged
  (`SilenceEnregistree`). So a short file starts afresh (`PetitPerdu`), and a registered transfer is forgotten when its
  client falls silent again while the resumption is being agreed (`RepriseOubliee`).
- An empty file: the client goes back to its prompt without the acknowledgement that the slave waits for. Left alone, the
  slave gives the running client up; a second GET, the same integer as OK, is taken for the acknowledgement, and then
  neither side has a move (`FichierVide`) until the client, after three seconds, gives the slave up and exits, which is
  a `Crash` here. Some run gets the two out of step, in either way, exactly when some served file is empty
  (`BloqueSsi`); at the acknowledgement, exactly when the size is 0 (`AccuseSsi`).

## Model

| member | source | states |
|---|---|---|
| `Partitions.ClassesAreComponents` | RO/APNEE2/Partition.java:56-83 | after any sequence of unions, two elements have the same representative iff the united pairs connect them by a walk |
| `Partitions.UnionKeepsFirst` | RO/APNEE2/Partition.java:61-64 | a union gives the elements connected to j the representative of i, and leaves every other its own |
| `Partitions.HangBelow` | RO/APNEE2/Partition.java:61-64 | hanging one root below the other keeps the parent array a forest whose roots are the representatives of the merged classes |
| `Partitions.Partition.constructor` | RO/APNEE2/Partition.java:18-28 | n singletons, nothing united |
| `Partitions.Partition.Creer` | RO/APNEE2/Partition.java:18-28 | as its callers see the constructor: n singletons, or an exception iff the size is negative |
| `Partitions.Partition.Trouver` | RO/APNEE2/Partition.java:34-45 | the walk up the parents terminates, at the representative of the class; negative and too large indices throw different exceptions |
| `Partitions.Partition.Unir` | RO/APNEE2/Partition.java:56-66 | exactly one pair is added to the united ones, only the root of j gets a new parent, the root of i, and the array represents the classes; on an exception nothing changes |
| `Partitions.Partition.SontConnectes` | RO/APNEE2/Partition.java:77-83 | true iff the pair is in the reflexive-symmetric-transitive closure of the united pairs |
| `Connectivity.OneMoreLink` | RO/APNEE2/Partition.java:56-66 | a new link connects exactly the pairs that were connected or use it once |
| `Aretes.Arete.AutreSommet` | RO/APNEE2/Arete.java:50-64 | the given vertex and the result are the edge's two ends, and it throws iff the vertex is neither |
| `Forests.Exchange` | RO/APNEE2/GraphePondere.java:123-129 | swapping an edge of a spanning forest for one whose ends it separates gives a spanning forest, with the weight changed by the difference |
| `Forests.GreedyStep` | RO/APNEE2/GraphePondere.java:121-125 | a lightest edge between two trees of a part of a minimum spanning forest can be added to it, and the result is again part of one |
| `Forests.AcyclicExtend` | RO/APNEE2/GraphePondere.java:123-124 | a new edge keeps a forest iff its ends are not joined, which is what the guard tests |
| `Forests.SpanningIsMinimum` | RO/APNEE2/GraphePondere.java:102-106 | a spanning part of a minimum spanning forest is that forest |
| `Forests.MinimumExists` | RO/APNEE2/GraphePondere.java:102-106 | every finite weighted graph has a minimum spanning forest |
| `Graphes.LightestIsLeast` | RO/APNEE2/GraphePondere.java:140-155 | the edge found is listed, unless it is the sentinel, and no listed edge is lighter |
| `Graphes.LightestIsFound` | RO/APNEE2/GraphePondere.java:142-154 | if some entry weighs less than 1000000000, the edge found stands at a place before which every entry is strictly heavier, and none is lighter; otherwise it is the edge 0-0 of that weight |
| `Graphes.MinusKeeps` | RO/APNEE2/GraphePondere.java:157-182 | after removal every entry is still listed at its two ends only and equally often at both |
| `GraphesPonderes.GraphePondere.constructor` | RO/APNEE2/GraphePondere.java:22-30 | n empty lists and no edge |
| `GraphesPonderes.GraphePondere.Creer` | RO/APNEE2/GraphePondere.java:22-30 | as its callers see the constructor: n empty lists, or an exception iff the size is below 1 |
| `GraphesPonderes.GraphePondere.AjouteArete` | RO/APNEE2/GraphePondere.java:67-86 | a valid edge is appended behind the others at both its ends, twice at the same one when it is a loop, and counted once; an invalid one throws and changes nothing |
| `GraphesPonderes.GraphePondere.AretePoidsMin` | RO/APNEE2/GraphePondere.java:140-155 | the first of the lightest entries in the order of the scan, or the edge 0-0 of weight 1000000000 when none is lighter than that |
| `GraphesPonderes.GraphePondere.SuppressionArete` | RO/APNEE2/GraphePondere.java:157-182 | the first entry of the edge leaves each end's list, the first two leave when the edge is a loop, and nothing else does |
| `GraphesPonderes.GraphePondere.SommetCouvert` | RO/APNEE2/GraphePondere.java:186-207 | true iff every vertex is an end of some edge |
| `GraphesPonderes.GraphePondere.Passe` | RO/APNEE2/GraphePondere.java:117-132 | one turn of the loop moves the aliased adjacency, the tree and the partition together as the abstract step says |
| `GraphesPonderes.GraphePondere.Kruskal` | RO/APNEE2/GraphePondere.java:106-137 | after any number of passes, input, tree and partition are in the state that many abstract steps lead to, and the exit test says whether the tree touches every vertex |
| `Kruskal.AcceptExtends` | RO/APNEE2/GraphePondere.java:121-126 | an accepted edge keeps the accepted edges inside some minimum spanning forest of the original input |
| `Kruskal.AcceptConserves` | RO/APNEE2/GraphePondere.java:115-126 | accepting moves one entry at each end from the input to the tree: the sum per vertex, as a multiset, is unchanged |
| `Kruskal.PasseKeeps` | RO/APNEE2/GraphePondere.java:117-132 | every turn of the loop keeps the whole invariant |
| `Kruskal.EveryLoopHead` | RO/APNEE2/GraphePondere.java:106-137 | for every graph and at every loop head: accepted edges are distinct, acyclic, in non-decreasing weight, no heavier than what is left, part of a minimum spanning forest of the input, and with the remaining entries make up the input at each vertex |
| `KruskalOutcome.ClassesAreTrees` | RO/APNEE2/GraphePondere.java:123-125 | the classes of the partition are exactly the connected components of the accepted edges |
| `KruskalOutcome.OrdreByWeight` | RO/APNEE2/GraphePondere.java:140-182 | repeatedly taking the lightest edge out lists edges by weight and skips none lighter than one it listed |
| `KruskalOutcome.ReturnsIff` | RO/APNEE2/GraphePondere.java:117-132 | the loop exits iff for some k the k lightest edges form a forest that touches every vertex |
| `KruskalOutcome.RejectionIsForEver` | RO/APNEE2/GraphePondere.java:123-132 | once an edge is rejected, no later pass changes anything and the loop never exits |
| `KruskalOutcome.SpansWhenRank` | RO/APNEE2/GraphePondere.java:117-129 | a forest of a graph's edges spans it iff their number is vertices less components |
| `KruskalOutcome.ResultIsMinimumIff` | RO/APNEE2/GraphePondere.java:106-137 | on every graph the accepted edges are a minimum spanning forest iff their number is vertices less components |
| `KruskalOutcome.ReturnsMinimumForestIff` | RO/APNEE2/GraphePondere.java:102-137 | on every graph, kruskal returns a minimum spanning forest iff the r lightest edges, r being vertices less components, form a forest that touches every vertex and the r - 1 lightest leave one untouched |
| `KruskalOutcome.ReturnsMinimumTreeIff` | RO/APNEE2/GraphePondere.java:102-137 | on a connected graph, kruskal returns a minimum spanning tree iff the n - 1 lightest edges form a forest and the n - 2 lightest leave a vertex untouched |
| `KruskalOutcome.LoopNeverReturns` | RO/APNEE2/GraphePondere.java:123-132 | a lightest edge that is a loop makes kruskal run for ever |
| `KruskalOutcome.PathReturnsTwoTrees` | RO/APNEE2/GraphePondere.java:117-136 | on a path with a heaviest middle edge kruskal returns two separate trees |
| `KruskalRepaired.KruskalRepare` | RO/APNEE2/GraphePondere.java:106-137 | with the rejected edge dropped, the loop ends on every graph with a minimum spanning forest of the edges lighter than the sentinel |
| `SousSeq.PlsscIsLongest` | Algo6/TD2_4/sousseq.java:34-46 | on every pair of suffixes the recursion gives the greatest length of a common subsequence |
| `SousSeq.CellStep` | Algo6/TD2_4/sousseq.java:63-72 | from three optimal neighbours the table's rule gives the optimum for the two longer prefixes |
| `SousSeq.Matrice` | Algo6/TD2_4/sousseq.java:48-83 | the prefix table gives that greatest length too, hence the value of plssc(0, 0), for all strings |
| `SousSeq.MirrorLongest` | Algo6/TD2_4/sousseq.java:34-72 | reversing both strings keeps the greatest length, so recursion from the front and from the back agree |
| `Motif.OccurrencesAreAll` | Algo6/APNEE1/RechercheMotif.java:10-33 | the reported indices are exactly the places of the pattern, each once and in increasing order |
| `Motif.Recherche` | Algo6/APNEE1/RechercheMotif.java:10-33 | the naive search reports exactly those, also for an empty pattern or one longer than the text |
| `Motif.Hash` | Algo6/APNEE1/RechercheMotif.java:39-45 | adding with 32-bit wrap-around gives the window's sum reduced once to 32 bits |
| `Motif.HashExtends` | Algo6/APNEE1/RechercheMotif.java:39-45 | the hash of a window one letter longer is the hash before plus the letter, taken to 32 bits; that of an empty window is 0 |
| `Motif.UpdateRolls` | Algo6/APNEE1/RechercheMotif.java:49-57 | the update turns the hash of one window into the hash of the next, in wrapping arithmetic |
| `Motif.RechercheKR` | Algo6/APNEE1/RechercheMotif.java:59-95 | Karp-Rabin reports the index sequence of the naive search for all texts and patterns |
| `Cases.Holding` | Algo6/Sokoban/Case.java:3-18 | which of the eight codes are free or hold pusher, sack, goal, obstacle |
| `Cases.AjoutPousseur` | Algo6/Sokoban/Case.java:20-34 | putting the pusher down throws exactly on cells that are neither free nor the pusher's, and keeps the goal |
| `Cases.RetraitPresent` | Algo6/Sokoban/Case.java:36-46 | lifting a pusher or sack that is there never throws and leaves the goal or nothing |
| `Cases.ContientEstInclus` | Algo6/Sokoban/Case.java:12-18 | on all pairs of cells, contient is inclusion of what stands on them, and estLibre is holding at most a goal |
| `Cases.AjoutEstUnion` | Algo6/Sokoban/Case.java:20-34 | on all pairs of cells, ajout yields the cell with the things of both, and throws iff that is no sack or pusher, on a goal or not |
| `Cases.RetraitEstDifference` | Algo6/Sokoban/Case.java:36-46 | on all pairs of cells, retrait yields the cell without the things of the other, and throws iff more than a goal is left |
| `Terrains.Terrain.constructor` | Algo6/Sokoban/Terrain.java:15-26 | the scan counts every goal of the board, occupied or not |
| `Terrains.Terrain.ButAtteint` | Algo6/Sokoban/Terrain.java:54-58 | one goal fewer, never below zero |
| `Terrains.Terrain.Assigner` | Algo6/Sokoban/Terrain.java:72-74 | one cell of the board changes and no other |
| `Chemins.DejaVu` | Algo6/Sokoban/Moteur.java:401-449 | dequeuing an already marked cell brings the first unmarked entry nearer or shortens the queue, although unmarked neighbours are queued again |
| `Chemins.TourTient` | Algo6/Sokoban/Moteur.java:401-449 | a turn keeps: queued and marked cells are reachable, every free neighbour of a marked cell is marked or queued |
| `Chemins.HorsDAtteinte` | Algo6/Sokoban/Moteur.java:449-451 | when the queue empties without meeting the target, no path leads to it |
| `Moteurs.Moteur.constructor` | Algo6/Sokoban/Moteur.java:27-46 | the scan finds the last pusher by lines, which is the pusher of a board that has exactly one; without any the fields stay 0 |
| `Moteurs.Moteur.EstPossible` | Algo6/Sokoban/Moteur.java:183-185 | true iff the cell is on the board and free |
| `Moteurs.Moteur.Tour` | Algo6/Sokoban/Moteur.java:403-447 | one dequeued cell is marked, its unmarked free neighbours queued, and the target recognised iff it is a free neighbour |
| `Moteurs.Moteur.ExisteChemin` | Algo6/Sokoban/Moteur.java:375-454 | terminates on every grid, with true iff start and target coincide or a four-neighbour path of free cells joins them |
| `Moteurs.Moteur.Transferer` | Algo6/Sokoban/Moteur.java:82-88 | the pusher leaves its cell as goal or free and enters a free cell; neither retrait nor ajout throws |
| `Moteurs.Moteur.Pousser` | Algo6/Sokoban/Moteur.java:109-164 | the push in any of the four directions has the effect the rules of the game give |
| `Moteurs.Moteur.Action` | Algo6/Sokoban/Moteur.java:48-179 | the call is accepted iff the cell is free and reachable or holds a sack with a free cell behind it; the new state is the rules', with the pusher on the cell, or the old one when refused |
| `Moteurs.Moteur.Jouer` | Algo6/Sokoban/Moteur.java:74-179 | over any sequence of calls, on the real objects, the game invariant holds relative to the first board |
| `Jeux.TouteLaPartie` | Algo6/Sokoban/Moteur.java:74-179 | in every game exactly one cell holds the pusher and it is where the fields say, obstacles stay, sacks plus goals reached is constant, and goals left is the initial count less those reached, floored at zero |
| `Jeux.CoupTient` | Algo6/Sokoban/Moteur.java:74-179 | each move keeps that invariant |
| `Jeux.CoupMarche` | Algo6/Sokoban/Moteur.java:78-97 | a walk changes two cells: the pusher's keeps its goal, the other gains the pusher; the moves grow by the distance, the actions by one |
| `Jeux.CoupPousse` | Algo6/Sokoban/Moteur.java:109-164 | a push changes three cells in line: the sack lands on the third, or leaves the board when that is a goal, which is counted; moves grow by one, actions do not |
| `Jeux.PoussableSsi` | Algo6/Sokoban/Moteur.java:103-164 | a sack can be pushed iff the pusher stands on one of its four sides and the cell on the opposite side is free |
| `Jeux.MarcheGardeLesButs` | Algo6/Sokoban/Moteur.java:82-88 | a walk leaves the goals where they are |
| `Jeux.PousseeGardeLesButsSsi` | Algo6/Sokoban/Moteur.java:109-164 | a push leaves the goals where they are iff pusher's, sack's and target cell are all goals or all plain |
| `Jeux.PousseeEffaceUnBut` | Algo6/Sokoban/Terrain.java:37-48 | on the default board, pushing the sack onto the goal takes the only goal off the board |
| `Jeux.PousseeDoubleUnBut` | Algo6/Sokoban/Moteur.java:140-151 | a pusher on a goal that pushes a sack onto a plain cell leaves two goals where there was one |
| `Jeux.DistanceAuPlus` | Algo6/Sokoban/Moteur.java:62-90 | what a walk adds to nb_mouvement is at most the number of steps of any path |
| `Jeux.DistanceAtteinte` | Algo6/Sokoban/Moteur.java:62-90 | that number is reached by a path when nothing is in the way |
| `Jeux.PasUnitaire` | Algo6/Sokoban/Moteur.java:409-447 | the steps of a path are exactly those of distance 1 |
| `ArcGraphes.MalformeIff` | Algo6/APNEE4/Graphe.java:110-123 | a token is refused as malformed iff it is not three digit runs shaped number/source+destination/ |
| `ArcTextes.ArcLu` | Algo6/APNEE4/Graphe.java:114-126 | number/source+destination/ is read as those three numbers, the vertices less 1, or refused when one is beyond an int |
| `ArcTextes.ArcImprime` | Algo6/APNEE4/Arc.java:10-12 | an arc is printed as number/source+destination/ with the vertices plus 1 |
| `ArcTextes.TokensIff` | Algo6/APNEE4/Graphe.java:101-110 | the tokens are the only way to cut the text with blanks alone in the gaps and every token as long as it can be |
| `ArcTextes.Blancs` | Algo6/APNEE4/Graphe.java:101-110 | what separates tokens is the whitespace of Java among the first 128 characters |
| `ArcTextes.CompteLu` | Algo6/APNEE4/Graphe.java:104-105 | a sign or none and digits, grouped by threes or not, give the count; a negative one, or one beyond an int, is refused |
| `ArcTextes.CompteRefuse` | Algo6/APNEE4/Graphe.java:104 | any other first token is refused |
| `ArcTextes.FichierLu` | Algo6/APNEE4/Graphe.java:108-137 | when every token is an arc whose source is a vertex, list i holds the arcs of source i in the order of the tokens |
| `ArcTextes.FichierRefuse` | Algo6/APNEE4/Graphe.java:111-129 | otherwise the first other token decides the exception: badly formed, or a number beyond an int or a source that is no vertex |
| `ArcGraphes.CompteReadsBack` | Algo6/APNEE4/Graphe.java:104-144 | the printed vertex count is read back in any locale, whose scanner also takes a sign and groups of digits |
| `ArcGraphes.ArcReadsBack` | Algo6/APNEE4/Arc.java:10-12 | a printed arc of any ints reads back as itself iff no part is printed with a sign, and is refused otherwise; the vertex counted from 1 overflows in 32 bits |
| `ArcGraphes.PrintedTokens` | Algo6/APNEE4/Graphe.java:143-155 | scanning a printed graph yields the vertex count and one token an arc, in order |
| `ArcTextes.LignesImprimees` | Algo6/APNEE4/Graphe.java:143-155 | the printed text is the vertex count and the arcs, each ended by one line feed |
| `ArcTextes.LigneDe` | Algo6/APNEE4/Graphe.java:146-152 | the arc at place k of list i is printed behind those of the lists before i and the k before it |
| `ArcGraphes.ReadPrinted` | Algo6/APNEE4/Graphe.java:95-155 | reading a printed graph, whose destinations and numbers are any ints, restores the vertex count and every list in order iff no arc is printed with a sign; otherwise it is refused |
| `ArcGraphes.LitImprimeRelit` | Algo6/APNEE4/Graphe.java:95-155 | for every text that lire accepts, printing the graph and reading that, in the same locale or another, gives the same graph |
| `Decimals.DecimalReads` | Algo6/APNEE4/Graphe.java:117-123 | a printed natural number is a non-empty digit run that reads back as itself |
| `Decimals.ValeurSuivante` | Algo6/APNEE4/Graphe.java:118-123 | reading is to base ten, most significant digit first |
| `Decimals.EntierForme` | Algo6/APNEE4/Arc.java:10-12 | only 0 is printed with a leading 0, and a negative number as a minus and its opposite |
| `GraphesArcs.Graphe.Ajouter` | Algo6/APNEE4/Graphe.java:125-136 | the arc goes to the end of its source's linked list; no other list changes and no link is shared |
| `GraphesArcs.Graphe.Lire` | Algo6/APNEE4/Graphe.java:95-138 | the linked lists hold what the text describes, or the text is refused as malformed or out of range |
| `GraphesArcs.Graphe.ToString` | Algo6/APNEE4/Graphe.java:143-155 | the text lists the arcs of all linked lists in order |
| `GraphesArcs.Graphe.NombreArcs` | Algo6/APNEE4/Graphe.java:17-30 | the number of places over all lists |
| `GraphesArcs.Graphe.Successeurs` | Algo6/APNEE4/Graphe.java:44-61 | the destinations in one list, in order |
| `GraphesArcs.Graphe.DegreMax` | Algo6/APNEE4/Graphe.java:63-85 | the greatest over the vertices v of the arcs in the list of v plus the arcs whose destination is v, or an exception iff some destination is no vertex |
| `GraphesArcs.Graphe.EstCouplage` | Algo6/APNEE4/Graphe.java:87-93 | true iff for each vertex v exactly one place (i, k) of the lists has i = v or destination v, and no arc in list i has destination i |
| `Couplages.PoigneesDeMain` | Algo6/APNEE4/Graphe.java:63-85 | the degrees sum to twice the number of arcs |
| `Couplages.DegreEstArcs` | Algo6/APNEE4/Graphe.java:71-78 | the degree of v is the arcs in its list plus the places, in any list, of arcs that arrive at v |
| `Couplages.ApparieSsi` | Algo6/APNEE4/Graphe.java:87-93 | the test on degrees and arc count is equivalent to a perfect matching said of the lists themselves |
| `Couplages.Tiroirs` | Algo6/APNEE4/Graphe.java:87-93 | degrees of at most 1 sum to n iff all are 1 |
| `Couplages.DegreUn` | Algo6/APNEE4/Graphe.java:63-85 | a vertex has degree 1 iff it is an end of exactly one arc and that arc is no loop |
| `Couplages.CouplageSsi` | Algo6/APNEE4/Graphe.java:87-93 | maximum degree at most 1 with n = 2m iff the arcs are a perfect matching |
| `Lexer.SplitInWords` | SR/Projet/readcmd.c:65-126 | the word array is the lexical split of the line |
| `Lexer.LexConserves` | SR/Projet/readcmd.c:72-122 | the words, put end to end, are the line without its blanks |
| `Lexer.LexIff` | SR/Projet/readcmd.c:65-126 | the words are the only way to cut the line with blanks alone in the gaps, each word an operator or a run that begins with none and ends at a stop or at the end of the line |
| `Lexer.Characters` | SR/Projet/readcmd.c:75-110 | blanks, operators and stops are the characters the grammar names; an ampersand ends no word |
| `Lexer.LexShapes` | SR/Projet/readcmd.c:75-117 | every word is one operator character, or a run free of blanks, <, > and pipes that does not begin with an operator |
| `ReadCmds.CmdLine.Lire` | SR/Projet/readcmd.c:187-258 | the structure holds what the parse of the words yields; after an error only the message and the background flag remain |
| `ReadCmds.SuiteItems` | SR/Projet/readcmd.c:193-257 | from any point of the loop, the rest is accepted iff it completes the grammar, and then what it means is gathered |
| `ReadCmds.AcceptsIff` | SR/Projet/readcmd.c:193-257 | a word list is accepted iff it derives from the grammar: at most one redirection each way, each with its target, and pipes only between commands that are not empty |
| `ReadCmds.AcceptedMeans` | SR/Projet/readcmd.c:193-257 | on acceptance the redirections, commands and flag are the grammar's meaning, no command is empty, and the commands in order are the words less pipes, ampersands and redirections |
| `ReadCmds.FauteSsi` | SR/Projet/readcmd.c:193-257 | each of the five errors, with the background flag seen so far, is reported iff the first items in order stop at its cause: a second redirection, a missing target, a pipe or an end behind an empty command |
| `ReadCmds.Exemple` | SR/Projet/readcmd.c:193-257 | one line with both redirections, a pipe and a flag, and the structure it gives |
| `ReadCmds.GroupesConcat` | SR/Projet/readcmd.c:220-248 | cutting at the pipes loses and reorders no argument |
| `JobLines.BuildJob` | SR/Projet/shell.c:140-152 | the job string is the commands, each word followed by a blank, joined by pipes |
| `JobLines.JobLineIsJoin` | SR/Projet/shell.c:140-152 | cut at its blanks, the job string is the words of the first command and an empty piece, and for each further command a pipe, its words and an empty piece |
| `JobLines.JobLineLength` | SR/Projet/shell.c:140-152 | it is one character longer than each word's letters, and three for each further command |
| `Decoupes.JoinUnique` | SR/Projet/shell.c:140-152 | a text is cut at a character in one way only |
| `JobLines.JobReadsBack` | SR/Projet/shell.c:140-152 | splitting and parsing the job string gives the commands back, with no redirection and no flag |
| `JobLines.JobRoundTrip` | SR/Projet/readcmd.c:193-257 | so it does for the commands of every line readcmd accepts |
| `RioPackage.RioReadn` | SR/TP7/csapp.c:557-576 | under any short reads and interruptions, the caller's buffer receives the next n bytes of the stream, or all that is left; -1 iff the last system call made, and no earlier one, met an error of the kernel |
| `RioPackage.RioWriten` | SR/TP7/csapp.c:583-600 | under any short writes and interruptions, all n bytes are written in order; -1, with a prefix written, iff the last system call made, and no earlier one, met an error or took nothing while errno was not left at EINTR |
| `RioPackage.LigneEstPlusCourte` | SR/TP7/csapp.c:688-700 | the length taken is the one that ends at the first newline, the cut or the end of the stream, whichever is first |
| `RioPackage.Rio.constructor` | SR/TP7/csapp.c:645-650 | the stream to deliver is the descriptor's |
| `RioPackage.Rio.RioRead` | SR/TP7/csapp.c:613-638 | what is delivered is the next part of buffered then unread bytes, it returns 0 only for no request or an ended stream, and -1 iff the last system call made, and no earlier one, met an error of the kernel |
| `RioPackage.Rio.RioReadnb` | SR/TP7/csapp.c:657-676 | under any short reads and interruptions, n bytes are delivered, or all up to the end of the stream; -1 iff the last system call made, and no earlier one, met an error of the kernel, and then nothing is lost |
| `RioPackage.Rio.RioReadlineb` | SR/TP7/csapp.c:683-704 | stores the shortest newline-ended prefix cut at maxlen - 1 bytes, then a zero; returns the stored count on a newline, 0 at an immediate end, stored + 1 otherwise; -1 iff the last system call made, and no earlier one, met an error of the kernel |
| `RioPackage.Rio.Session` | SR/TP7/csapp.c:613-704 | over any sequence of calls, bytes delivered, buffered and unread make up the original stream; without an error of the kernel what is delivered depends on the stream and the calls alone, not on short reads or interruptions |
| `Registres.Registre.Add` | SR/projet_ftp/stock_ip.c:19-28 | the new entry comes first, the others keep their order |
| `Registres.Registre.RemoveFirst` | SR/projet_ftp/stock_ip.c:31-42 | the first entry goes, the others stay |
| `Registres.Registre.FileName` | SR/projet_ftp/stock_ip.c:69-92 | the file of the client's first entry, or none |
| `Registres.Registre.Bytes` | SR/projet_ftp/stock_ip.c:94-117 | the offset of the client's first entry, or -1 |
| `Registres.Registre.Contain` | SR/projet_ftp/stock_ip.c:120-143 | true iff some entry is the client's |
| `Transferts.EcrireCorrect` | SR/projet_ftp/client.c:342-358 | writing the server's bytes behind a correct prefix lengthens it, and shortens no other correct prefix |
| `Transferts.ClientInv` | SR/projet_ftp/client.c:335-437 | every move of the client keeps the three-party invariant |
| `Transferts.SlaveInv` | SR/projet_ftp/slave.c:440-609 | so does every move of the slave |
| `Transferts.DelaiInv` | SR/projet_ftp/slave.c:461-476 | so does giving up a client from which nothing comes, dead, at its prompt or waiting itself, with what is registered then |
| `Transferts.ConnecteInv` | SR/projet_ftp/master.c:127-160 | so does a new connection, with what is handed over and forgotten then |
| `Transferts.RunInv` | SR/projet_ftp/master.c:101-160 | the invariant holds in every reachable state, over any number of crashes and resumptions |
| `Transferts.OffsetsCorrects` | SR/projet_ftp/slave.c:462-474 | every registered offset is at most the number of correct leading bytes of the client's file |
| `Transferts.RunGrandit` | SR/projet_ftp/client.c:335-372 | over any number of crashes and resumptions, no correct prefix of a client file ever shrinks |
| `Transferts.AcheveComplet` | SR/projet_ftp/client.c:350-371 | whenever a transfer completes, the first nb_octets bytes of the client's file are the server's file |
| `Transferts.SilenceEnregistree` | SR/projet_ftp/slave.c:454-477 | a client given up is registered iff a chunk was unacknowledged and the file has at least MAXLINE bytes, at an offset within MAXLINE behind the acknowledged position |
| `Transferts.PetitPerdu` | SR/projet_ftp/slave.c:462-468 | a run after which a short file is interrupted, not registered, and started afresh |
| `Transferts.RepriseOubliee` | SR/projet_ftp/slave.c:526-595 | a run in which a registered transfer is forgotten because the client falls silent again in the resumption |
| `Transferts.FichierVide` | SR/projet_ftp/client.c:144-161 | a run with an empty file after which the slave gives up a running client, or takes its next GET for the acknowledgement and both wait |
| `Transferts.BloqueSsi` | SR/projet_ftp/client.c:144-161 | some run leaves the slave waiting for an acknowledgement that the client will not send iff some served file is empty; so too for a run that leaves each waiting for the other |
| `Transferts.AccuseSsi` | SR/projet_ftp/slave.c:316-341 | in every run, a running client that has read the size of its file has acknowledged it iff the size is not 0 |
| `Transferts.Reprend` | SR/projet_ftp/master.c:143-151 | the next connection resumes the registered file at the registered offset, behind correct bytes, and the entry is gone |
| `Transferts.Reconnexion` | SR/projet_ftp/master.c:143-160 | with nothing registered, the next connection starts at the prompt; a client whose slave has left ends at its next command |
| `Transferts.Libere` | SR/projet_ftp/slave.c:440-609 | wherever a client dies, its slave alone comes to give it up and is free again |
| `Transferts.InviteOubliee` | SR/projet_ftp/slave.c:363-369 | a client that stays at its prompt too long, or waits itself, is given up, with nothing registered and no file changed |
| `Transferts.UnEchange` | SR/projet_ftp/slave.c:448-452 | one exchange moves both sides to the end of the same chunk |
| `Transferts.Aboutit` | SR/projet_ftp/slave.c:440-487 | from any point between chunks the two processes alone bring the transfer to its end, with the whole file correct, back to the prompt |
| `Transferts.GetComplet` | SR/projet_ftp/slave.c:303-341 | from any prompt, a GET of a file that is not empty, with no crash, ends at the prompt with the whole file, the slave waiting for the next command |
| `Transferts.GetAbsent` | SR/projet_ftp/client.c:139-161 | from any prompt, a GET of a file the server does not have leads back to the prompt and changes nothing |
| `Transferts.RepriseComplete` | SR/projet_ftp/slave.c:514-609 | after any run that leaves a registered transfer, a connection without a further crash ends at the prompt with the whole file |
| `Peterson.RunInv` | SR/TP5/peterson.c:43-75 | in every interleaving, the flags follow the processes and the turn is against whoever waits while the other is inside |
| `Peterson.ExclusionMutuelle` | SR/TP5/peterson.c:51-75 | the two processes are never in their critical sections together |
| `Peterson.JamaisTousDeux` | SR/TP5/peterson.c:56-70 | when both wait, the favoured one enters after two reads of its own whatever the other does, so both are never held for ever |
| `Peterson.AttenteBornee` | SR/TP5/peterson.c:53-70 | from every state, whoever waits is in once the other has made five steps and it has then made two, however they are interleaved |
| `Peterson.SansConcurrent` | SR/TP5/peterson.c:56-70 | a process that stays outside holds the waiting one up for at most two steps of its own |
| `Peterson.UnSeulDepassement` | SR/TP5/peterson.c:53-70 | while one process waits the other enters at most once, and only if the turn already favours it |
| `TellWait.RunInv` | SR/TD4/tell_wait.c:18-61 | in every run each delivered signal has its wait, returned or on its way with the flag up |
| `TellWait.RetourApresAppel` | SR/TD4/tell_wait.c:41-61 | never more waits have returned than signals were delivered, nor delivered than told |
| `TellWait.Bilan` | SR/TD4/tell_wait.c:41-61 | in every run each tell is delivered, pending, or merged into one that was still pending |
| `TellWait.ChacunSonReveil` | SR/TD4/tell_wait.c:41-61 | every tell is delivered or pending on its own iff none found the signal already pending |
| `TellWait.PasPerdu` | SR/TD4/tell_wait.c:41-61 | from a tell until the wait it is for returns, the signal is pending or the flag is up, also when it comes between the loop exit and the reset |
| `TellWait.Reveille` | SR/TD4/tell_wait.c:41-56 | whatever steps are interleaved, a waiting child with the signal pending or the flag up returns by its own fourth step |
| `TellWait.AutreSignal` | SR/TD4/tell_wait.c:46-48 | a child woken by the other signal alone tests the flag again and sleeps on |
| `TellWait.SansMasquePerdu` | SR/TD4/tell_wait.c:28-34 | what the mask that init_synchro sets is for: without it there would be a run after which the child sleeps for ever with its flag up |
| `TellWait.ParentDAbord` | SR/TD4/slow_write.c:25-37 | in every run the child writes nothing before the whole of the parent's text is out, and each text comes out in order |
| `TellWait.JusquAuBout` | SR/TD4/slow_write.c:25-37 | until both processes are through one of them can move, and then the output is the parent's text followed by the child's |

## Left out

- `GraphesPonderes.GraphePondere.Kruskal`: the source's loop has no bound and on some graphs no end, so the method runs a given number of passes; the theorems hold for every number. The `poids` total and the input's `m`, which the source does not decrement, are left out, and so are the traces it prints.
- Weights are reals: no infinities and no rounding. An edge carries the identity that the inherited `equals` compares.
- `Partitions.Partition.constructor` and `GraphesPonderes.GraphePondere.constructor`: Dafny constructors cannot fail, so they take valid sizes; `Creer` of each class has the exception.
- `compareTo`, `voisins` and the graph reader of the weighted graph, which kruskal does not use.
- `plssc` reads two static strings, which are parameters here; its last branch cannot be taken.
- `Motif.Recherche` and `Motif.RechercheKR`: the printed indices are returned as a sequence, and the inner comparison loop, the same in both, is one method.
- Sokoban: reading and drawing boards, `Explorer` and its priority queue (its visited table has keys without equality). Clicks are on the board. `buti`, `saci` and the like are not used by the modelled methods. The four push branches, the same statement for statement, are one method. `Terrains.Terrain.constructor` starts from the cells read.
- `GraphesArcs.Graphe.Lire`: Unicode blanks and digits, and locales whose sign is not - or +. The locale's group separator is a parameter. Arc numbers over the int range are out-of-range errors, which the source raises as a number format exception.
- `EnumP` in both APNEE4 directories, whose branches share the lists they change, and the convex hull of APNEE5.
- The shell: allocation and release in `readcmd`, line input, `exit`, and process control. The job buffer is an initially empty string without a bound; the source allocates it without clearing it.
- `ReadCmds.CmdLine.Lire`: does not model which words are freed after an error.
- In `rio_readnb` the EINTR branch after `rio_read` is dead, since `rio_read` returns -1 only for other errors, and is not modelled. The caller's buffer is not the internal one.
- `RioPackage.Descripteur`: the kernel is a script of interruptions, errors and amounts; after the script it moves all it can.
- `Transferts.RunInv`: one client address; a crash is silence noticed by a timeout; one socket write is one read; the server's files do not change. Names arrive whole: the source clears the byte after the one behind the name. Master and slave do not fail and an exchange between them is one step. The client can open its file and a disk write stores all its bytes. A running client answers in time, except at its prompt; one whose slave has left ends at its next command. A client that gives its slave up after its own three seconds and exits is one that crashes.
- `Transferts.DelaiInv`: after a resumption that failed, line 110 of slave.c sets `connected` again, so the slave turns once more on the closed descriptor and reports CLIENT_CRASHED a second time; the model goes to waiting at once, and a client that connects between the two reports is not modelled.
- `Registres.Registre.RemoveFirst`: stands for `remove_by_ip` when the client's entry is first, the only case with one client; the rest of `remove_by_ip` does not unlink what it intends.
- FTP commands other than GET, forking, and select timing.
- `Peterson.RunInv`: memory is sequentially consistent, and entry and exit repeat; the program's single pass is a prefix.
- `TellWait.RunInv`: `tell_parent` and `wait_child`, which mirror the modelled direction with the other signal; that signal appears only as one that may wake the wait early.
