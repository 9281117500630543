# Dungeon game core, modelled in Dafny

This project models the core of a text-adventure dungeon game:

- **The dungeon (`DungeonImpl`).** It builds a random maze:
  - it lays out a rows × cols grid of nodes, wrapping at the edges or not;
  - it carves a random spanning tree out of the grid with a Kruskal-style merge of "clouds";
  - it adds back `interconnectivity` of the left-over edges;
  - it casts every node to a cave (1, 3 or 4 entries) or a tunnel (2 entries);
  - it places Otyughs, treasure and arrows on random draws, picks a start and an end at least 5 moves apart, and puts the Yugoloth, the thief and the pit on the first free caves.
- **The game.** It runs on that maze, or on a graph the caller supplies:
  - it places the player and moves them;
  - it picks up treasure and arrows;
  - it shoots crooked arrows that follow tunnels;
  - it decides deaths by Otyugh;
  - it describes a room, including the smell of Otyughs one or two moves away.
- **The node model (`AbstractNode`, `CaveNode`, `TunnelNode`, `GenericNode`).** Each node kind accepts or refuses each content operation.
- **The rest.** `Otyugh`'s health rules, the Yugoloth's `RandomMove` strategy, and `PlayerImpl`'s own checks and bookkeeping.

## How the model is built

- **Nodes are values.**
  - A `Node` is a datatype with a name, four optional links (`Links`) and a kind (generic, cave or tunnel), each kind with its own contents.
  - A link is the grid position of the neighbour. The dungeon keeps its nodes in an `array2<Node>` and updates them in place, as the Java code updates node objects.
- **Each Java method becomes a function or a method.**
  - A Java method that throws becomes a `Result` or `Option<Error>` whose error carries the same message.
  - Java's unchecked exceptions map onto `Error`: `IllegalArgument`, `Unsupported`, and `NullReference` for a `NullPointerException`.
- **`java.util.Random` is an `Rng` object.**
  - It holds an unknown draw stream (`draws: nat -> nat`) and a cursor (`used`).
  - The contracts of the random operations say how many draws they consume and what they do with them.
  - For the start and end search and for a single node's treasure or arrows they also say which draw decides what; for the cave draws of `Draws` they do not (see "Left out").
  - Values from `Math.random()` are `real` parameters in [0, 1).
- **The static name counters of `AbstractNode` and `Otyugh` are `counter` parameters.**
- **The dungeon is the class `Engine.Dungeon` and the player is the class `Players.Player`.**
  - The dungeon knows its player only by object identity, as the Java code does.
- **The maze generation is proved to build a connected maze.**
  - It has exactly rows·cols − 1 + interconnectivity corridors.
  - Every node is a cave or a tunnel according to its number of entries.
- **The breadth-first searches are proved against a graph-distance specification.**
  - They are the shortest-path check in `DungeonImpl` and the Otyugh count behind the smell in `AbstractNode`.
  - The specification is balls of radius k around a node (module `Topology`).

Where the description of the system and the code disagree, the model follows the code:

- `GenericNode`'s five-argument constructor passes its left and right neighbours to `AbstractNode`'s constructor, which expects right before left, so they end up swapped (`Nodes.GenericWithLinks`).
- The start and end search draws names from 1 to rows·cols − 1 only, so the last node of the grid is never the start or the end (`Population.Drawn`, `Population.AcceptedNames`).

## Model

| member | source | states |
|---|---|---|
| Otyughs.Spawn | src/dungeongame/Otyugh.java:18-21 | a new Otyugh is at full health (100), not yet hit, and named after the counter |
| Otyughs.Copy | src/dungeongame/Otyugh.java:28-33 | a copy has the same name and health |
| Otyughs.Make | src/dungeongame/Otyugh.java:43-60 | construction succeeds exactly for a health in 0..100, and otherwise fails with the health message |
| Otyughs.SetHealth | src/dungeongame/Otyugh.java:85-91 | the same range check; on success only the health changes |
| Otyughs.GotHitByArrow | src/dungeongame/Otyugh.java:98-104 | the new health is valid and at most 50; it is 50 exactly when the Otyugh was at full health, and 0 for any other health; a living Otyugh always loses health |
| Otyughs.Hit | src/dungeongame/DungeonImpl.java:1029-1030 | storing the reduced health keeps the name and agrees with `setHealth(gotHitByArrow())` |
| Otyughs.FreshOtyughDiesOnSecondHit | src/dungeongame/Otyugh.java:98-113 | a fresh Otyugh is unhit, is hit but alive after one arrow, and dead after two |
| Otyughs.HitsOnlyLowerHealth | src/dungeongame/Otyugh.java:98-104 | a hit never raises health, and any Otyugh is dead after at most two hits |
| Nodes.Opposite | src/node/AbstractNode.java:310-323 | the opposite side is never the side itself |
| Nodes.OppositeInvolutive | src/node/AbstractNode.java:310-323 | the opposite of the opposite side is the side |
| Nodes.WithLink | src/node/AbstractNode.java:63-96 | replacing one side's link sets that side and leaves the other three |
| Nodes.Degree | src/node/AbstractNode.java:176-192 | the entry count is at most 4; it is 0 exactly for no links and 4 exactly when all four sides are linked |
| Nodes.ParseTreasure | src/node/CaveNode.java:72 | `Treasure.valueOf` finds a treasure whose name is the string, and finds none when no treasure has that name |
| Nodes.ParseTreasureName | src/node/Treasure.java:7-11 | parsing a treasure's name gives back that treasure |
| Nodes.TypeTag | src/node/CaveNode.java:119-121 | the type tag is "G", "C" or "T" exactly for generic, cave and tunnel nodes |
| Nodes.NewGeneric | src/node/GenericNode.java:31-42 | a new generic node has no links, and is named by the given name or else by the counter |
| Nodes.GenericWithLinks | src/node/GenericNode.java:23-26 | the name is kept and top and bottom are as given, but the given left becomes the right link and the given right becomes the left link |
| Nodes.CloneNode | src/node/CaveNode.java:124-128 | a clone equals the original in every field |
| Nodes.SetLink | src/node/AbstractNode.java:63-96 | setting a side fails exactly on a self-link, with the side's message; otherwise only that side changes |
| Nodes.CastToCave | src/node/AbstractNode.java:99-106 | only a generic node can be cast; the result is an empty cave with the same name and links |
| Nodes.CastToTunnel | src/node/AbstractNode.java:109-116 | only a generic node can be cast; the result is an empty tunnel with the same name and links |
| Nodes.PlaceTreasure | src/node/CaveNode.java:60-80 | succeeds exactly on a cave with a non-empty known name and a positive count, with each error case's message; `count` copies of the treasure are appended and nothing else changes |
| Nodes.PlaceRandomTreasure | src/node/CaveNode.java:40-57 | a cave's treasure becomes 1..4 items, the number and each kind given by the consumed draws, and its thief flag is cleared; tunnels and generic nodes refuse without drawing |
| Nodes.FirstIndex | src/node/CaveNode.java:100-104 | the index of the first copy of a treasure, or the length when there is none: no copy comes before it |
| Nodes.RemoveFirst | src/node/CaveNode.java:104 | `List.remove` drops the first copy of a present treasure and keeps the rest in order; an absent one leaves the list alone |
| Nodes.RemoveFirstCount | src/node/CaveNode.java:104 | removing a present treasure leaves one item fewer and takes exactly one copy out of the multiset |
| Nodes.RemoveTreasure | src/node/CaveNode.java:83-106 | succeeds exactly on a cave holding the named treasure, with the message of each failing check in the source's order; on success the first copy is dropped, the other treasures keep their order, and nothing else changes |
| Nodes.RemoveTreasureCount | src/node/CaveNode.java:100-105 | a successful removal leaves one treasure fewer and takes exactly one copy of it out of the multiset |
| Nodes.GetTreasures | src/node/CaveNode.java:109-116 | a cave lists its treasures' names in order; other kinds refuse |
| Nodes.PlaceOtyugh | src/node/CaveNode.java:131-139 | succeeds exactly on a cave without an Otyugh; only the Otyugh slot changes |
| Nodes.RemoveOtyugh | src/node/CaveNode.java:142-148 | succeeds exactly when there is an Otyugh; afterwards there is none and nothing else changes |
| Nodes.GetOtyugh | src/node/CaveNode.java:151-157 | a cave yields its Otyugh or none; other kinds refuse |
| Nodes.SetOtyughHealth | src/node/CaveNode.java:160-170 | succeeds exactly for a cave with an Otyugh and a valid health; only that health changes |
| Nodes.AddArrows | src/node/CaveNode.java:173-177 | caves and tunnels get 1..4 arrows from one draw; generic nodes refuse without drawing |
| Nodes.AddSingleArrow | src/node/CaveNode.java:180-182 | one more arrow on a cave or tunnel; generic nodes refuse |
| Nodes.RemoveArrow | src/node/CaveNode.java:185-191 | one arrow fewer, which needs an arrow there; generic nodes refuse |
| Nodes.GetNumArrows | src/node/CaveNode.java:194-196 | the arrow count of a cave or tunnel; generic nodes refuse |
| Nodes.AddThenRemoveArrow | src/node/TunnelNode.java:85-96 | dropping an arrow and picking it up again gives back the same node |
| Nodes.PlaceYugoloth | src/node/CaveNode.java:199-202 | caves and tunnels take the Yugoloth; only that flag changes |
| Nodes.RemoveYugoloth | src/node/CaveNode.java:205-211 | succeeds exactly when the Yugoloth is there; afterwards it is gone |
| Nodes.PlaceThief | src/node/CaveNode.java:214-216 | caves and tunnels take the thief; only that flag changes |
| Nodes.AddPit | src/node/CaveNode.java:219-221 | only a cave takes a pit; only that flag changes |
| Nodes.TunnelCapabilities | src/node/TunnelNode.java:29-126 | a tunnel refuses every treasure, Otyugh and pit operation and accepts the thief, arrows and the Yugoloth |
| Nodes.GenericCapabilities | src/node/GenericNode.java:50-219 | a generic node refuses every content operation and holds no Yugoloth or Otyugh |
| Text.NatToString | src/node/AbstractNode.java:36 | the decimal name is non-empty, all digits, and has no leading zero |
| Text.NatToStringRoundTrip | src/dungeongame/DungeonImpl.java:298 | reading the digits of a generated name gives back the number |
| Text.NatToStringInjective | src/dungeongame/DungeonImpl.java:298 | different numbers give different node names |
| Text.IntToString | src/node/CaveNode.java:66-70 | the decimal text of a count starts with '-' exactly when it is negative |
| Text.ToUpper | src/dungeongame/PlayerImpl.java:170 | upper-casing keeps the length and upper-cases each letter a..z, leaving other characters |
| Randomness.Rng.NextInt | src/dungeongame/DungeonImpl.java:507 | a draw is below the bound, is the next value of the stream, and advances the cursor by one |
| Grid.Neighbour | src/dungeongame/DungeonImpl.java:303-325 | a neighbour in the grid is always inside it |
| Grid.Borders | src/dungeongame/DungeonImpl.java:303-325 | without wrapping, border sides have no neighbour and inner sides step by one; with wrapping, every side steps around the edge |
| Grid.GenerateGraph | src/dungeongame/DungeonImpl.java:293-328 | a fresh rows × cols grid of generic nodes named 1..rows·cols in row-major order, each linked to its grid neighbours |
| Grid.NameNodes | src/dungeongame/DungeonImpl.java:295-300 | every cell holds an unlinked generic node named by its row-major number |
| Grid.LinkNodes | src/dungeongame/DungeonImpl.java:303-325 | after the linking pass every cell is the named node linked to its grid neighbours |
| Grid.LinkCell | src/dungeongame/DungeonImpl.java:304-324 | linking one cell extends the linked prefix of the row-major order by that cell |
| Grid.CellLinksShape | src/dungeongame/DungeonImpl.java:303-325 | one cell's grid links stay inside the grid, each leads to a cell whose facing side leads back, and with wrapping there are four |
| Grid.GridShape | src/dungeongame/DungeonImpl.java:303-325 | the generated grid's links are symmetric and stay inside it, and with wrapping every node has four entries |
| Grid.NeighbourSymmetric | src/dungeongame/DungeonImpl.java:303-325 | the neighbour's opposite side leads back |
| Grid.NoSelfLinks | src/dungeongame/DungeonImpl.java:303-325 | from two rows and two columns on, no node neighbours itself |
| Grid.NumberedCell | src/dungeongame/DungeonImpl.java:295-299 | every number 1..rows·cols is the row-major number of a cell of the grid |
| Grid.CellNames | src/dungeongame/DungeonImpl.java:295-299 | node numbers lie in 1..rows·cols and two cells share a name exactly when they are the same cell |
| Grid.GridEdgesExact | src/dungeongame/DungeonImpl.java:342-380 | the list of node pairs holds every grid edge once and nothing else |
| Grid.CellListExact | src/dungeongame/DungeonImpl.java:669-672 | the row-major list of locations holds every cell once and has rows·cols entries |
| Forest.InitialClouds | src/dungeongame/DungeonImpl.java:382-395 | every cell starts in a cloud of its own |
| Forest.Merge | src/dungeongame/DungeonImpl.java:449-467 | after merging, every cell that was in the second cloud is in the first, and every other cell keeps its cloud |
| Forest.MergePartition | src/dungeongame/DungeonImpl.java:460-463 | merging two different clouds keeps a partition of the grid |
| Forest.MergeReps | src/dungeongame/DungeonImpl.java:460-463 | merging two different clouds leaves one cloud fewer |
| Forest.OneCloud | src/dungeongame/DungeonImpl.java:506-512 | once the two ends of every grid edge share a cloud, the whole grid is one cloud |
| Spanning.CarvedLinks | src/dungeongame/DungeonImpl.java:415-429 | the links of a grid with some edges removed are the grid links minus the removed edges |
| Spanning.RemoveNeighbour | src/dungeongame/DungeonImpl.java:415-429 | if the source links to the target, the first such side and its facing side are cleared; otherwise nothing changes |
| Spanning.AddConnection | src/dungeongame/DungeonImpl.java:469-495 | joining two nodes on a side links both ways; a self-link is refused with the side's message |
| Spanning.MergeClouds | src/dungeongame/DungeonImpl.java:449-467 | a pair already in one cloud is unlinked and becomes a leftover; otherwise the clouds merge and the grid is untouched |
| Spanning.Unlink | src/dungeongame/DungeonImpl.java:456-459 | unlinking a pair in both directions removes exactly that edge from the carved grid |
| Spanning.SpanningTree | src/dungeongame/DungeonImpl.java:497-513 | the carved grid is connected with rows·cols − 1 corridors; the leftovers are the distinct grid edges it lacks; one draw per pair |
| Spanning.DrawPair | src/dungeongame/DungeonImpl.java:506-511 | one round draws one pair and keeps the spanning-tree invariant with one pair fewer |
| Spanning.Settle | src/dungeongame/DungeonImpl.java:449-467 | settling the drawn pair keeps the spanning-tree invariant and moves the pair from the pending to the processed ones |
| Spanning.MergeStep | src/dungeongame/DungeonImpl.java:460-463 | merging the clouds of a pair in different clouds keeps a partition, settles the pair, and leaves one cloud fewer |
| Spanning.Interconnect | src/dungeongame/DungeonImpl.java:515-543 | the range checks and their messages; on success `k` leftovers are linked back, one draw each, and the corridor count grows by `k` |
| Spanning.Reconnect | src/dungeongame/DungeonImpl.java:533-538 | linking the drawn leftover back removes it from the removed edges |
| Spanning.CarvedConnected | src/dungeongame/DungeonImpl.java:497-513 | a carved grid whose removed edges never separate two cells is connected |
| Spanning.CarvedEdgeCount | src/dungeongame/DungeonImpl.java:497-543 | the corridor count is the number of grid edges minus the removed ones |
| Spanning.TreeFacts | src/dungeongame/DungeonImpl.java:506-512 | after every pair is processed there is one cloud, and the leftovers do not disconnect the grid |
| Spanning.CarvedShape | src/dungeongame/DungeonImpl.java:497-543 | a carved grid is symmetric, has no self-links and is still all generic |
| Casting.Cast | src/dungeongame/DungeonImpl.java:564-569 | a node with 1, 3 or 4 entries becomes an empty cave and one with 2 an empty tunnel, keeping name and links; an isolated node stays as it is |
| Casting.CastNodes | src/dungeongame/DungeonImpl.java:545-576 | every node is replaced by its cast, symmetry is kept, and the caves come back in row-major order, exactly the cave cells |
| Casting.CastCell | src/dungeongame/DungeonImpl.java:564-571 | one cell is cast and recorded when it becomes a cave; no other cell changes |
| Casting.Repoint | src/dungeongame/DungeonImpl.java:571 | in a symmetric grid, making neighbours point back changes nothing |
| Casting.NoneLeftGeneric | src/dungeongame/DungeonImpl.java:545-576 | in a connected grid of at least two cells every node casts to a cave or a tunnel |
| Casting.Linked | src/dungeongame/DungeonImpl.java:545-576 | in a connected grid of at least two cells every node has an entry |
| GridOps.SelfSide | src/dungeongame/DungeonImpl.java:416-427 | the first side linking to a node is found exactly when some side does |
| GridOps.PointBack | src/node/AbstractNode.java:311-322 | the linked neighbour's facing side is set back to the node; a self-link fails with the side's message |
| GridOps.UpdateCastInNeighbours | src/node/AbstractNode.java:310-323 | every neighbour's facing side points back to the node, names and contents untouched; a self-link fails |
| GridOps.Store | src/dungeongame/DungeonImpl.java:565-568 | writing a node with the same links back changes one cell and keeps the topology |
| GridOps.SymmetricUndirected | src/dungeongame/DungeonImpl.java:303-325 | in a grid whose links are symmetric, every neighbour of a node has the node among its own neighbours |
| GridOps.FacingSidesPointBack | src/node/AbstractNode.java:310-323 | in a symmetric grid the facing side of every neighbour already points back |
| Draws.AddTreasure | src/dungeongame/DungeonImpl.java:578-593 | `count` distinct caves, drawn without replacement, each get random treasure; other cells and all links are untouched |
| Draws.AddArrowsTo | src/dungeongame/DungeonImpl.java:623-637 | `count` distinct locations, drawn without replacement, each get 1..4 arrows; other cells and all links are untouched |
| Draws.AddOtyughs | src/dungeongame/DungeonImpl.java:605-621 | numOtyughs − 1 distinct caves, drawn without replacement, get fresh Otyughs, which are also returned in order; fewer than two, or more than the caves plus one, is an error |
| Draws.Spawned | src/dungeongame/DungeonImpl.java:614-615 | the k Otyughs created in a row carry consecutive counter names |
| Draws.DrawStep | src/dungeongame/DungeonImpl.java:586-590 | removing the drawn element keeps drawing without replacement |
| Draws.ShareBounds | src/dungeongame/DungeonImpl.java:580-582 | the ceiling of the randomised share of n is between 1 and n, and at least the requested share |
| Population.Drawn | src/dungeongame/DungeonImpl.java:794-795 | `nextInt(n − 1) + 1` names a node numbered 1..n − 1, never n |
| Population.Outcome | src/dungeongame/DungeonImpl.java:794-816 | an attempt accepts only two differently named nodes in the grid at least 5 moves apart, the end a cave and the start without an Otyugh; a failed lookup is an IllegalArgumentException |
| Population.Attempts | src/dungeongame/DungeonImpl.java:793-817 | the 1000 attempts in order, the k-th decided by draws at + 2k and at + 2k + 1 |
| Population.TryPair | src/dungeongame/DungeonImpl.java:794-816 | one pass of the loop spends two draws and comes to the k-th attempt's outcome |
| Population.ChooseStartEnd | src/dungeongame/DungeonImpl.java:787-832 | the result is that of the first attempt not skipped among the 1000, and the "cannot find" error when all are skipped; a chosen pair has different names, is at least 5 moves apart, ends in a cave and starts without an Otyugh; a grid of fewer than two nodes is refused; at most 2000 draws |
| Population.AcceptedNames | src/dungeongame/DungeonImpl.java:794-803 | an accepted pair's nodes carry the names of its two draws, two different numbers in 1..n − 1 |
| Population.FirstAccepted | src/dungeongame/DungeonImpl.java:811-813 | a pair found by the search is the first accepted attempt, every attempt before it skipped |
| Population.FirstFailed | src/dungeongame/DungeonImpl.java:802-803 | an error other than giving up comes from the first failed attempt, every attempt before it skipped |
| Population.GivesUp | src/dungeongame/DungeonImpl.java:819-822 | when every attempt is skipped the search fails with the "cannot find" message |
| Population.ErrSkipsAll | src/dungeongame/DungeonImpl.java:793-822 | without failed lookups, a search that fails skipped every attempt |
| Population.SettledFacts | src/dungeongame/DungeonImpl.java:787-822 | the search's answer is an acceptable pair of differently named nodes, or an IllegalArgumentException |
| Population.NumberNamed | src/dungeongame/DungeonImpl.java:295-300 | on a grid named in row-major order every number 1..rows·cols names a node |
| Population.RowMajorFound | src/dungeongame/DungeonImpl.java:802-803 | on such a grid no lookup of the search fails |
| Population.RowMajorStartEnd | src/dungeongame/DungeonImpl.java:787-822 | on such a grid the search fails exactly when all 1000 attempts are skipped, and then with the "cannot find" message |
| Population.FreeCave | src/dungeongame/DungeonImpl.java:744-745 | a free node is a cave without an Otyugh whose name differs from each avoided name; a missing name is a null dereference |
| Population.FindFree | src/dungeongame/DungeonImpl.java:742-756 | the row-major scan returns the first free cave, or none |
| Population.FirstFreeIsFirst | src/dungeongame/DungeonImpl.java:742-756 | no cave before the one found is free, and none is found exactly when no cave is free |
| Population.PlaceYugolothAt | src/dungeongame/DungeonImpl.java:738-757 | the Yugoloth goes to the first free cave other than the start, changing only that node |
| Population.PlaceThiefAt | src/dungeongame/DungeonImpl.java:716-736 | the thief goes to the first free cave avoiding the Yugoloth and the start; a missing Yugoloth is a null dereference |
| Population.PlacePitAt | src/dungeongame/DungeonImpl.java:692-714 | the pit goes to the first free cave avoiding the Yugoloth, the start and the thief |
| Population.OtyughToEnd | src/dungeongame/DungeonImpl.java:759-785 | a fresh Otyugh goes to the end cave, or to the first free cave other than the start when the end already has one |
| Population.FirstFreeNeverFails | src/dungeongame/DungeonImpl.java:742-756 | with a present start name, the scan never dereferences null |
| Generator.RandomArgsError | src/dungeongame/DungeonImpl.java:179-218 | the arguments pass exactly for rows and cols of at least the minimum, non-negative interconnectivity, a share in (0, 1] and 0..rows·cols Otyughs; a negative or too small row count gets its own message |
| Generator.Create | src/dungeongame/DungeonImpl.java:71-93 | a built dungeon is a fresh valid rows × cols maze, connected, with rows·cols − 1 + k corridors, every node typed by its entries, and start and end at least 5 apart |
| Generator.Maze | src/dungeongame/DungeonImpl.java:643-655 | carving fails exactly on the interconnectivity range errors; otherwise the maze is connected with rows·cols − 1 + k corridors, typed by degree, bare, and the caves are listed in row-major order |
| Generator.Carve | src/dungeongame/DungeonImpl.java:643-652 | spanning tree plus interconnectivity gives a connected, symmetric, self-link-free grid with rows·cols − 1 + k corridors |
| Generator.Tree | src/dungeongame/DungeonImpl.java:645-647 | the generated grid carved to a spanning tree, with its distinct leftovers |
| Generator.CastAll | src/dungeongame/DungeonImpl.java:655 | casting keeps connectivity and the corridors and types every node by its entry count |
| Generator.CastTyped | src/dungeongame/DungeonImpl.java:564-569 | a generic node that casts becomes an empty cave or tunnel whose kind matches its entry count |
| Generator.Ready | src/dungeongame/DungeonImpl.java:643-652 | a carved grid whose removed edges do not disconnect it is ready to cast |
| Generator.Populate | src/dungeongame/DungeonImpl.java:658-690 | the Otyugh-count errors, and on success a valid dungeon on the same topology with start and end at least 5 apart |
| Generator.Stock | src/dungeongame/DungeonImpl.java:658-666 | too many Otyughs for the caves, or fewer than two, is an error; otherwise numOtyughs − 1 are spawned and every node keeps its name, links and type |
| Generator.Arm | src/dungeongame/DungeonImpl.java:668-674 | spreading the arrows keeps every node's name, links and type |
| Generator.Place | src/dungeongame/DungeonImpl.java:676-690 | a dungeon on the same links with distinct start and end at least 5 moves apart |
| Generator.Haunt | src/dungeongame/DungeonImpl.java:682-689 | the Yugoloth, thief and pit positions are in the grid and every node keeps its name, links and type |
| Engine.FindByName | src/dungeongame/DungeonImpl.java:330-340 | the row-major search returns the first node with that name |
| Engine.FirstNamedIsFirst | src/dungeongame/DungeonImpl.java:330-340 | nothing before the found node has the name, and none is found exactly when no node has it |
| Engine.CountTreasureCaves | src/dungeongame/DungeonImpl.java:252-263 | the count is zero exactly when no cave holds treasure |
| Engine.CheckEntries | src/dungeongame/DungeonImpl.java:265-291 | the entry check reports the first cave without 1, 3 or 4 entries or tunnel without 2 entries, in row-major order |
| Engine.FirstEntriesError | src/dungeongame/DungeonImpl.java:265-291 | the entry check finds no error exactly when every node passes |
| Engine.EntriesOkDescribable | src/dungeongame/DungeonImpl.java:283-288 | a node that passes the entry check has a cave's or a tunnel's number of entries |
| Engine.DistanceCheck | src/dungeongame/DungeonImpl.java:247-250 | for distinct nodes, a search answer of at least 5 means exactly that the end is reachable and at least 5 moves away |
| Engine.Dungeon.constructor | src/dungeongame/DungeonImpl.java:125-135 | the fields are stored as given and no player is placed |
| Engine.Dungeon.FromGraph | src/dungeongame/DungeonImpl.java:119-147 | each constructor check in order with its message: size, Otyugh count, names, distance, treasure, entries; both names finding the same node of a symmetric graph is refused as too close; on success the fields are stored and every check holds |
| Engine.Dungeon.PlacePlayer | src/dungeongame/DungeonImpl.java:834-846 | a first player is placed alive at the start; the same or a second player is refused and nothing changes |
| Engine.Dungeon.KillPlayer | src/dungeongame/DungeonImpl.java:856-866 | the node's verdict follows the Otyugh's health, and one draw is spent only for a wounded Otyugh |
| Engine.LethalCases | src/dungeongame/DungeonImpl.java:856-866 | no Otyugh never kills, a full-health one always kills, a wounded one kills exactly on a draw below 50, and any other health never kills |
| Engine.Dungeon.MovePlayer | src/dungeongame/DungeonImpl.java:868-918 | the player checks, invalid directions and missing links fail with their messages and move nothing; otherwise the player moves to the linked neighbour and the verdict is that node's |
| Engine.Dungeon.PickUpTreasure | src/dungeongame/DungeonImpl.java:920-931 | after the player checks, the current node loses that treasure, or the node's error is returned and nothing changes |
| Engine.Dungeon.PickUpArrow | src/dungeongame/DungeonImpl.java:933-943 | after the player checks, the current node loses one arrow, or the node's error is returned |
| Engine.Dungeon.ShootArrow | src/dungeongame/DungeonImpl.java:965-1057 | the player checks, then the arrow's flight from the player, then the landing: the reported cells and codes, the one node changed, and the killed Otyugh struck from the list |
| Engine.Dungeon.Fly | src/dungeongame/DungeonImpl.java:975-1010 | the loop's landing is the flight function's |
| Engine.Dungeon.Land | src/dungeongame/DungeonImpl.java:1012-1056 | the result codes and the node change of a landing; only the landing node changes |
| Engine.Dungeon.HasReachedEnd | src/dungeongame/DungeonImpl.java:1065-1069 | true exactly when the player's node has the end's name; no player is an error |
| Engine.Dungeon.HandToHandBattle | src/dungeongame/DungeonImpl.java:1480-1483 | the player dies exactly on a draw below 50, one draw spent |
| Engine.Dungeon.KillYugoloth | src/dungeongame/DungeonImpl.java:1489-1492 | the Yugoloth and its position are gone and nothing else changes |
| Engine.Dungeon.MoveYugoloth | src/dungeongame/DungeonImpl.java:1255-1257 | the Yugoloth moves to the strategy's destination or stays; the grid changes as the strategy's removal and placement say, and only at the two nodes; the setup, player and Otyughs are unchanged; no Yugoloth is a null dereference |
| Arrows.Flight | src/dungeongame/DungeonImpl.java:981-1010 | the landing stays in the grid |
| Arrows.FlightEnds | src/dungeongame/DungeonImpl.java:987-994 | an arrow stops either at the requested distance or at a wall in its heading |
| Arrows.FlightCounts | src/dungeongame/DungeonImpl.java:982-989 | the distance travelled never falls below where it started and never exceeds the requested distance |
| Arrows.TunnelTurnGoesOn | src/dungeongame/DungeonImpl.java:997-1006 | in a tunnel the arrow turns to the other exit, never back where it came from |
| Arrows.Impact | src/dungeongame/DungeonImpl.java:1026-1052 | a landing never changes a node's name, links or type |
| Arrows.ShotOutcome | src/dungeongame/DungeonImpl.java:1026-1046 | an arrow ending its flight on an Otyugh reports 0 and wounds it when healthy, and reports 1, 0 and kills it otherwise; the arrow is lost |
| Arrows.MissOutcome | src/dungeongame/DungeonImpl.java:1047-1052 | a short flight or a complete one into a tunnel leaves the arrow there; a complete one into an empty cave loses it; nothing is reported |
| Arrows.LastNamedIndex | src/dungeongame/DungeonImpl.java:1032-1037 | the index of the last Otyugh with the name, no later one having it, or −1 exactly when none has it |
| Arrows.RemoveLastNamed | src/dungeongame/DungeonImpl.java:1032-1039 | removing a present name drops the last Otyugh with that name and keeps the rest in order; an absent name leaves the list |
| Arrows.RemoveLastNamedCount | src/dungeongame/DungeonImpl.java:1039 | removing a present name leaves one Otyugh fewer, exactly one copy of the last one with the name |
| Arrows.DirLetterRoundTrip | src/dungeongame/DungeonImpl.java:945-963 | the side letters L, R, U and D and the sides correspond one to one |
| Search.ShortestPathDistance | src/dungeongame/DungeonImpl.java:1272-1315 | for distinct nodes, a positive answer is the graph distance and −1 means unreachable; searching from a node for itself on a graph whose links go both ways answers 1 for a self-link, −1 for an isolated node and 2 otherwise |
| Search.SearchGrid | src/dungeongame/DungeonImpl.java:1282-1312 | the breadth-first loop answers with the distance or −1, and for the start itself as `ShortestPathDistance` states |
| Search.ExpandHead | src/dungeongame/DungeonImpl.java:1283-1309 | one round either answers or keeps the search invariant with the head expanded |
| Search.VisitNeighbours | src/dungeongame/DungeonImpl.java:1300-1309 | the end is found exactly when it is among the neighbours; otherwise the unvisited ones are recorded one step further |
| SearchInvariant.SearchSteps | src/dungeongame/DungeonImpl.java:1283-1309 | expanding the head keeps the breadth-first invariant and makes progress |
| SearchInvariant.SearchFinds | src/dungeongame/DungeonImpl.java:1306-1308 | meeting the end as a neighbour of the head gives its distance |
| SearchInvariant.SelfRound | src/dungeongame/DungeonImpl.java:1287-1309 | in a search for the start itself, the first round finds a self-link or queues exactly the start's neighbours, and the second round meets the start again |
| SearchInvariant.SearchExhausted | src/dungeongame/DungeonImpl.java:1314 | an emptied queue means the end is unreachable |
| Search.OtyughsAtDistance | src/node/AbstractNode.java:118-174 | the count is the number of Otyugh caves at exactly the given distance, the node itself excluded |
| Search.SmellGrid | src/node/AbstractNode.java:133-171 | the breadth-first loop counts the Otyugh caves at exactly distance m |
| Search.ScanNeighbours | src/node/AbstractNode.java:150-166 | the scan stops exactly at the first unvisited neighbour beyond m, and otherwise counts the Otyughs it meets at distance m |
| Search.ExpandSmell | src/node/AbstractNode.java:134-171 | one round either stops with every Otyugh at distance m counted, or keeps the search invariant and counts what it found |
| Search.NeighboursOf | src/node/AbstractNode.java:137-149 | the neighbours listed are exactly the linked ones, one per entry |
| SmellInvariant.SmellSteps | src/node/AbstractNode.java:150-166 | one expansion keeps the search invariant and counts what it found at distance m |
| SmellInvariant.SmellStops | src/node/AbstractNode.java:159-161 | stopping once the head is at distance m or beyond misses no Otyugh at distance m |
| SmellInvariant.SmellExhausted | src/node/AbstractNode.java:133 | an emptied queue has counted every Otyugh at distance m |
| Description.DescriptionError | src/node/AbstractNode.java:196-216 | a node is refused exactly when it is generic, a cave without 1, 3 or 4 entries, or a tunnel without 2 |
| Description.RoomDescription | src/node/AbstractNode.java:195-307 | the error cases with their messages, and otherwise the description of the node with the smell from the Otyugh counts at distances 1 and 2 |
| Description.Smell | src/node/AbstractNode.java:294-304 | the smell line is computed from the Otyugh counts at distances 1 and 2 |
| Description.SmellLevels | src/node/AbstractNode.java:294-304 | the smell is strong exactly when an Otyugh is one move away or two are two moves away, faint for exactly one at two moves, and absent otherwise |
| Description.SelfNeverCounted | src/node/AbstractNode.java:124-126 | the node's own Otyugh never counts towards its smell |
| Description.OpenSides | src/node/AbstractNode.java:229-240 | one compass letter per entry |
| Description.SidesJoined | src/node/AbstractNode.java:229-245 | appending the open sides and trimming the last ", " joins them with ", " |
| Description.ArrowLineCounts | src/node/AbstractNode.java:286-292 | no arrow line for zero arrows; otherwise the count with "arrow" or "arrows" |
| Description.TreasureLineCounts | src/node/AbstractNode.java:247-284 | a treasure line appears exactly for a kind present, with its count and singular or plural name |
| Strategy.Directions | src/dungeongame/RandomMove.java:11-24 | the available sides are exactly the linked ones, one per entry |
| Strategy.PickUniform | src/dungeongame/RandomMove.java:27 | index i is chosen exactly for draws in [i/n, (i+1)/n) |
| Strategy.Destination | src/dungeongame/RandomMove.java:26-46 | a node with entries moves to one of its neighbours; one without stays |
| Strategy.EverySideChosen | src/dungeongame/RandomMove.java:26-28 | every linked side is chosen for some draw |
| Strategy.Move | src/dungeongame/RandomMove.java:10-52 | the Yugoloth leaves its node for the destination and is placed there, or stays when the node has no entries |
| Strategy.Relocate | src/dungeongame/RandomMove.java:29-48 | the Yugoloth is removed from one node and placed on the other, failing as the node operations do |
| Players.Added | src/dungeongame/PlayerImpl.java:172-176 | picking up one item adds one to that name's count, changes no other count, and keeps every count positive |
| Players.AddedCommutes | src/dungeongame/PlayerImpl.java:172-176 | the bag does not depend on the order of two pick-ups |
| Players.UpperIdempotent | src/dungeongame/PlayerImpl.java:170 | upper-casing twice is upper-casing once, so both spellings count under one name |
| Players.Player.constructor | src/dungeongame/PlayerImpl.java:28-36 | a new player has the name, three arrows, an empty bag and is alive |
| Players.Player.New | src/dungeongame/PlayerImpl.java:28-44 | an empty name is refused with its message; otherwise a fresh player as the constructor makes it |
| Players.Player.Enter | src/dungeongame/PlayerImpl.java:55-59 | the dungeon places the player alive at the start, or refuses with the same- or second-player message and the dead flag and the player's place are kept; the setup, Otyughs, Yugoloth and grid never change |
| Players.Player.Move | src/dungeongame/PlayerImpl.java:72-144 | a dead player cannot move and the dungeon is not asked; otherwise the dungeon's player checks, a missing link's message, or the move to the linked node with that node's verdict; the grid, setup, Otyughs and Yugoloth never change |
| Players.Player.PickUpTreasure | src/dungeongame/PlayerImpl.java:162-177 | a dead player is refused; then the dungeon's player checks; the player's node loses the upper-cased treasure as `removeTreasure` says, or its error is returned; only that node changes, and the bag gains the name only on success |
| Players.Player.PickUpArrow | src/dungeongame/PlayerImpl.java:212-222 | a dead player is refused; then the dungeon's player checks; the player's node loses one arrow or its error is returned; only that node changes, and the player gains an arrow only on success |
| Players.Player.ShootArrow | src/dungeongame/PlayerImpl.java:262-288 | the player's checks in order spend nothing; otherwise one arrow is spent and comes back only when the dungeon refuses the shot; the dungeon's checks, an invalid direction, and for a valid one the flight, the reported cells and codes, the one node changed and the killed Otyugh struck from the list, as the dungeon states them |
| Players.Player.Kill | src/dungeongame/PlayerImpl.java:350-352 | the player is dead |
| Players.Player.TreasureStolen | src/dungeongame/PlayerImpl.java:358-360 | the bag counts nothing |
| Players.Player.UpdateName | src/dungeongame/PlayerImpl.java:342-344 | the player goes by the new name |

## Left out

- **Null arguments.** The `ValueSanity` null checks and `NullPointerException`s on null arguments are left out: Dafny values are never null.
  - The model keeps the one null dereference that a valid call can reach: a missing Yugoloth or thief position during placement.
- **Integer overflow.** Java's 32-bit `int` overflow is not modelled: counts, healths and sizes are unbounded integers.
  - No operation here comes near 2³¹.
- **Floating point.** `float` and `double` arithmetic is exact `real` arithmetic.
  - Values from `Math.random()` are parameters in [0, 1).
- **Random draws.** `java.util.Random` is an arbitrary draw stream; how the stream is generated is not modelled.
- **Static counters.** The static name counters are explicit `counter` parameters and are not shared global state.
- **Node identity.** Nodes are values held in the grid, and a link is a grid position, so two Java references to one node object become the same position.
  - The model does not capture aliasing between two grids or two node objects with the same name.
  - The arrow's landing is reported by its position; the source looks up the last node with that name, which is the same node when names are unique.
- **Node pairs.** `getNodePairs` builds a `HashSet`, whose iteration order is unspecified.
  - The model uses a fixed edge order, one edge per grid edge from its row-major first end.
  - Since a pair is drawn at random each round, only which edges are drawn matters to the properties proved.
- **Pair orientation.** Pairs are sorted by name before use, and that orientation is not modelled.
  - An edge is oriented from its row-major first end.
- **Clouds.** They are a map from cell to a representative cell instead of a list of node lists.
  - `findCloud`, `deleteCloud` and their linear searches are therefore not separate members.
- **`addConnection`'s empty-direction case.** `getNodeDirection` can return "", and `addConnection` then does nothing.
  - That case is not modelled, because every leftover pair is a grid edge and has a direction.
- **`hookRandomMoveStrategyToYugoloth`.** It is not modelled; only one strategy exists, and the Yugoloth always moves by `Strategy.Move`.
- Population.OtyughToEnd: it does not model the `updateCastInNeighbours` call after placing the Otyugh (`DungeonImpl.java:763` and `773`).
  - On the symmetric maze it changes no link, as `GridOps.FacingSidesPointBack` shows.
- **Start-end relinking.** `updateCastInNeighbours` on the start node after the search (`DungeonImpl.java:824-831`) is not modelled.
  - Its effect on the symmetric maze is none, as `Casting.Repoint` shows.
- **String rendering.** `toString`, `setInitialMaze`, the getters, `getPlayerTreasures` and `getPlayerTreasuresList` are left out; they only render state as text.
- **Treasure line order.** The treasure lines of a room description follow a fixed order (sapphire, diamond, ruby) instead of the order of a `HashSet`.
- **Player numbers.** The player's `Player` interface and its `Dungeon` casts are not modelled.
- Arrows.Flight: the flight takes a `fuel` bound and fails with `OutOfFuel` when it runs out.
  - A Java arrow in a cycle of tunnels with no cave loops forever instead.
- Engine.Dungeon.FromGraph: when both names find the same node of a graph whose links do not all go both ways, it does not say whether the distance check passes.
  - The search then answers with the length of the first cycle through the node it meets, which the model does not characterise.
- Engine.Dungeon.ShootArrow: it carries the same `fuel` parameter as `Arrows.Flight`.
- Text.ToUpper: it upper-cases only the ASCII letters a..z, not the whole of Unicode as `String.toUpperCase` does.
- Casting.CastNodes: it is modelled only on grids whose links are symmetric and free of self-links, the only grids the generator builds.
  - On such grids `updateCastInNeighbours` cannot fail.
- Spanning.Interconnect: when `forceInterconnectivityRange` is false and `interconnectivity` lies between the number of leftovers and min(rows, cols), the source's `nextInt(0)` throws.
  - The model returns that as an error.
- Draws.AddOtyughs: with fewer than two Otyughs, or more than the caves plus one, the source's do-while loop keeps drawing until the caves run out and `nextInt(0)` throws. The model returns an error instead.
- Draws.AddTreasure: it says that `count` distinct caves are drawn without replacement, not which draw picks which cave.
- Draws.AddArrowsTo: it says that `count` distinct locations are drawn without replacement, not which draw picks which one.
- Draws.AddOtyughs: it says that numOtyughs − 1 distinct caves are drawn without replacement, not which draw picks which cave.
- Draws.AddTreasure: a count of zero, or more than there are caves, makes the source's do-while loop call `nextInt(0)`. The model returns an error instead.
- Draws.AddArrowsTo: the same draw failure as `Draws.AddTreasure`, returned as an error.
- Players.Player.New: the `PlayerImpl` constructor is modelled as a factory returning a `Result`, because a Dafny constructor cannot fail.
- Players.Player.Move: the four moves are one method taking the side.
- Generator.Create: it does not state the exact draws consumed, only the shape of the dungeon it builds.
  - The draws are stated by the methods it calls.
- Generator.Populate: it does not restate what each placement step puts on which cell; `Draws` and `Population` state that.
