# Classical algorithms and small data structures, modelled and proved in Dafny

This project models five small programs and states what each one guarantees. Each source file is one Dafny module:

- `dfs.dfy`, module `Dfs`, models `DFS.java`.
  - It is an iterative depth-first search with an explicit stack of edges.
  - It hands out preorder and postorder numbers and records the discovery order in `result`.
  - When the stack empties, it restarts from the smallest unvisited node (`minUnvisited`).
  - It labels every edge tree, forward, back or cross.
  - The search is a state machine: a `State` value, one `Step` function and one loop invariant `Inv`, with lemmas showing that every step keeps `Inv` and lowers a termination measure.
  - The method `Dfs` runs the same loop over arrays and is proved to mirror the state machine.
  - The Node and Edge objects are laid out by index. Node v's `visited`, `preorder` and `postorder` are position v of three arrays. Edge e's `traversed` and `type` are position e of two arrays. Each node's `neighbors` list is a sequence of edge numbers.
- `edit_distance.dfy`, module `Levenshtein`, models `EditDistance.java`.
  - The recursive Levenshtein distance `Dist` is the specification.
  - `FillTable` and `FillRow` fill the two-dimensional table.
  - `WalkBack` and `Backtrace` walk back through the table. They build the two aligned strings, with ' ' for a gap and a fixed tie-break: diagonal, then left, then up.
  - Lemmas show that the alignment keeps both strings in order and costs exactly the distance, and that no alignment costs less.
- `union_find.dfy`, module `DisjointSets`, models `UnionFind.java`.
  - A parent array with no path compression, plus the `disjoint` counter.
  - A ghost root and rank per node witness that the parent graph is acyclic and that `disjoint` counts its roots.
- `linked_list.dfy`, module `LinkedLists`, models `linkedlist.c`.
  - A key-to-value list with unique keys. Adding an existing key overwrites that node; adding a new key prepends a node.
  - The node chain is a sequence of nodes, and the list stands for a `map<int, int>`.
- `hash_table.dfy`, module `HashTables`, models `hashtable.c`.
  - A chained hash table whose buckets are those lists, with a size counter.
  - Bucket i holds exactly the keys that hash to i.
- `riscv.dfy`, module `Riscv`, models `riscv.c`.
  - An interpreter step for a RISC-V subset: R, I, memory and U formats.
  - The 32 registers are 32-bit words (`bv32`, wrapping around). The memory is a byte-addressed, little-endian hash table.
  - Decoding works on the instruction text. It covers the mnemonic tables, `strsep`, space removal (done in place on a NUL-terminated buffer, as in the C code), `atoi` and the hex or decimal immediates.
  - A decode-after-format round trip is proved for every instruction.
  - `sb` stores the low byte of the base register `reg2`, which is what riscv.c:262 reads. The instruction set would store the low byte of `reg1`. The model follows the code.

## Model

| member | source | states |
|---|---|---|
| Dfs.Dfs | DFS.java:51-112 | On return, `Done` holds of the final state the arrays hold: every node has been visited. The preorder numbers are exactly 1..n, and `result` lists the nodes in preorder, so `result` is a permutation of 0..n-1. The postorder numbers are exactly 1..n as well. Every edge was pushed exactly once and ends traversed. Its type agrees with the endpoints' numbers as a depth-first search promises. Each node's edges were processed in neighbour-list order. An edge is a tree edge exactly when it is the edge that discovered its head. The ghost outputs name the state the loop stops in and the number of iterations, and that state is the state-machine run from the initial state after exactly that many steps, with an empty stack. |
| Dfs.Search | DFS.java:59-110 | The loop, run over the arrays from the initial stack with its one placeholder edge into node 0, ends after `steps` iterations in the state `Run(g, steps)`, whose stack is empty. The arrays hold that state, and it has every final guarantee of `Dfs`. |
| Dfs.InitialMirrors | DFS.java:52-57 | Fresh nodes and edges (unvisited, unnumbered, untraversed, untyped) with the counters at 1 are the arrays' view of the search's initial state. |
| Dfs.StepTop | DFS.java:59-110 | One turn of the loop leaves the arrays, the stack and the counters equal to the state-machine `Step` of the state they mirrored. |
| Dfs.PopEdge | DFS.java:64-74 | The branch for an already-traversed edge. A tree edge gives its head the next postorder number. The edge is popped, and an emptied stack gets a placeholder edge into `minUnvisited` when one is left. |
| Dfs.VisitHead | DFS.java:76-97 | The branch for an unvisited head. It visits the head, advances `minUnvisited`, records the head in `result` with the next preorder number, makes the edge a tree edge and pushes the head's edges so that the first one ends on top. |
| Dfs.NextCursor | DFS.java:79-85 | The scan returns the first unvisited node at or after its start, or n. |
| Dfs.NextUnvisited | DFS.java:79-85 | The scan's result lies in range. Every node it skips is visited, and the node it stops at is unvisited. |
| Dfs.PushNeighbors | DFS.java:91-96 | The loop over the neighbour list, from the last edge to the first, appends exactly the head's frames, the first edge ending on top. |
| Dfs.TypeEdge | DFS.java:98-109 | An edge into a visited head is typed forward, cross or back from the endpoints' numbers, and marked traversed. |
| Dfs.TypeOf | DFS.java:99-107 | The type given to an edge into a visited node is forward, cross or back. |
| Dfs.InitialInv | DFS.java:52-57 | The loop invariant holds for the initial state: counters at 1, cursor at 0, one placeholder into node 0. |
| Dfs.StepCases | DFS.java:60-108 | Under the invariant exactly the three branches occur, so a placeholder (null tail) never reaches the branch that reads the tail's preorder number. `Step` takes `Finish` for a traversed top edge, `Discover` for an unvisited head and `Classify` otherwise. |
| Dfs.DiscoverInv | DFS.java:76-97 | Discovering a node (`Discover`) keeps the invariant. This covers the numbering, the cursor, the active path, the stack layout, the edge status and the edge types. |
| Dfs.FinishInv | DFS.java:64-74 | Popping a traversed edge (`Finish`) keeps the invariant. |
| Dfs.ClassifyInv | DFS.java:98-109 | Typing an edge into a visited node (`Classify`) keeps the invariant. |
| Dfs.StepInv | DFS.java:59-110 | Every iteration keeps the invariant. The invariant includes that `minUnvisited` is the smallest unvisited node, or n. |
| Dfs.StepDecreases | DFS.java:59-110 | Every iteration lowers a lexicographic measure (rank, untraversed edges, stack height), so the loop terminates. |
| Dfs.UnvisitedBound | DFS.java:70-71 | While some node is unvisited, at most n preorder numbers have been handed out, so `result[preorder - 1]` is in bounds. |
| Dfs.InitialTreeEdges | DFS.java:52-57 | Initially no edge is a tree edge and no node has a discovering edge. |
| Dfs.DiscoverTreeEdges | DFS.java:86-89 | Discovering a head through an input edge makes that edge its tree edge and records it as the head's discovering edge. A placeholder edge records none. |
| Dfs.FinishTreeEdges | DFS.java:64-74 | Popping a traversed edge keeps the tree edges exactly the discovering edges. |
| Dfs.ClassifyTreeEdges | DFS.java:98-109 | An edge into an already visited node is never typed tree, so the tree edges stay exactly the discovering edges. |
| Dfs.StepTreeEdges | DFS.java:59-110 | Every iteration keeps the tree edges exactly the edges that discovered their heads. |
| Dfs.Iteration | DFS.java:59-110 | One iteration from the state reached after k steps is one of the three branches, keeps both invariants, lowers the measure and reaches the state after k + 1 steps. |
| Dfs.HaltsUnique | DFS.java:59 | The run from the initial state stops in at most one state: two step counts at which the stack is empty give the same state. |
| Dfs.AllVisited | DFS.java:59 | When the stack is empty, every node is visited and has a postorder number. |
| Dfs.Complete | DFS.java:51-112 | An empty stack under the invariant gives the final guarantees of `Dfs`. |
| Dfs.TypeByNumbers | DFS.java:99-107 | The final numbers alone tell back, cross and tree/forward edges apart, and a self-loop is a back edge. |
| Levenshtein.GetEditDistance | EditDistance.java:46-140 | The distance is the Levenshtein distance of s1 and s2. The aligned strings are the walk's rendering, of equal length between max(m, n) and m + n. Dropping their gaps gives back s1 and s2. Their cost equals the distance, and no alignment costs less. |
| Levenshtein.DistBounds | EditDistance.java:9-10 | The distance (`Dist`) lies between the difference of the two lengths and the longer length. |
| Levenshtein.Symmetric | EditDistance.java:9-10 | The distance of s1 and s2 equals the distance of s2 and s1. |
| Levenshtein.SymmetricBelow | EditDistance.java:9-10 | Swapping the strings never raises the distance. |
| Levenshtein.Triangle | EditDistance.java:9-10 | The distance obeys the triangle inequality: the distance of a and c is at most that of a and b plus that of b and c. |
| Levenshtein.FillTable | EditDistance.java:54-80 | `A[i][0] = i`, `A[0][j] = j`, and every cell holds the distance of the two prefixes. |
| Levenshtein.FillRow | EditDistance.java:65-79 | Filling row i + 1 from row i makes every cell of it the distance of its prefixes. |
| Levenshtein.Recurrence | EditDistance.java:65-79 | The table's recurrence (copy the diagonal on a match, otherwise one plus the smallest neighbour) computes the edit distance. |
| Levenshtein.DropOne | EditDistance.java:72 | Dropping one character changes the distance by at most one. |
| Levenshtein.DropFirst | EditDistance.java:72 | Dropping the last character of s1's prefix raises the distance by at most one. |
| Levenshtein.DropSecond | EditDistance.java:72 | Dropping the last character of s2's prefix raises the distance by at most one. |
| Levenshtein.Choose | EditDistance.java:106-130 | The step taken is the smallest of the diagonal, left and upper cells, with ties going to the diagonal, then to the left. |
| Levenshtein.StepAt | EditDistance.java:88-130 | On the border only a gap is possible, and every step stays inside the table. |
| Levenshtein.Path | EditDistance.java:85-131 | The walk from cell (i, j) uses exactly i characters of s1 and j characters of s2. |
| Levenshtein.WalkBack | EditDistance.java:85-131 | One turn of the backtrace lowers m + n and prepends one column, the one the walk's rendering has there. |
| Levenshtein.Backtrace | EditDistance.java:82-136 | The reversed builders equal the rendering of the walk from (m, n). |
| Levenshtein.StepCost | EditDistance.java:106-130 | The step the walk takes lies on a cheapest path to its cell. |
| Levenshtein.PathCost | EditDistance.java:108-130 | The alignment the walk builds costs exactly the distance. |
| Levenshtein.Optimal | EditDistance.java:12-21 | No alignment of the two prefixes costs less than their distance. |
| Levenshtein.KeptReproduces | EditDistance.java:88-136 | The non-gap columns of each aligned string, picked by the move rather than by comparing with ' ', spell out the consumed prefix of s1 and of s2. |
| Levenshtein.KeptFirst | EditDistance.java:88-136 | The gap-free columns of the first aligned string spell out the prefix of s1 that the moves consume. |
| Levenshtein.KeptSecond | EditDistance.java:88-136 | The gap-free columns of the second aligned string spell out the prefix of s2 that the moves consume. |
| Levenshtein.Columns | EditDistance.java:85-136 | An alignment has between max(i, j) and i + j columns. |
| Levenshtein.Reverse | EditDistance.java:135-136 | Character k of the reversal is character len-1-k of the original. |
| DisjointSets.UnionFind.constructor | UnionFind.java:21-27 | Every node is its own parent and root, and `disjoint` is v. |
| DisjointSets.UnionFind.Find | UnionFind.java:30-35 | Returns a root (`trees[r] == r`), the one reached by following parent links from v. |
| DisjointSets.UnionFind.Union | UnionFind.java:39-45 | If the roots are already equal, nothing changes. Otherwise only `trees[V2root]` changes, to V1root, and `disjoint` drops by one. Afterwards v1 and v2 share a root, the forest stays acyclic and `disjoint` still counts the roots. |
| DisjointSets.UnionFind.Disjoint | UnionFind.java:48-50 | The counter is the number of roots, between 1 and v when v is at least 1. |
| DisjointSets.RootIsReached | UnionFind.java:31-33 | The root recorded for a node is where its parent links lead. |
| DisjointSets.FollowFurther | UnionFind.java:31-33 | Once a root is reached, following more links stays at that root. |
| DisjointSets.LinkPreservesForest | UnionFind.java:43-44 | Hanging one root under a different root keeps the forest acyclic and removes exactly that root. |
| DisjointSets.IdentityRoots | UnionFind.java:24-26 | When every node is its own parent, there are v roots. |
| DisjointSets.RootsBounds | UnionFind.java:17-18 | A non-empty forest has between 1 and v roots. |
| LinkedLists.LinkedList.constructor | linkedlist.c:19-26 | An empty list of size 0. |
| LinkedLists.LinkedList.Add | linkedlist.c:28-52 | The mapping gets key ↦ value and nothing else changes. An existing key keeps the size and the node order; a new key is prepended and the size grows by one. Keys stay distinct. |
| LinkedLists.LinkedList.Get | linkedlist.c:54-69 | The value stored under the key, or 0 when there is none. |
| LinkedLists.LinkedList.Size | linkedlist.c:71-74 | The counter equals the number of keys stored. |
| LinkedLists.MapOfLookup | linkedlist.c:59-67 | A key is in the mapping exactly when some node carries it, and then it maps to that node's value. |
| LinkedLists.MapOfSize | linkedlist.c:8 | With distinct keys, the mapping has as many keys as the chain has nodes. |
| LinkedLists.MapOfUpdate | linkedlist.c:36-39 | Overwriting one node's value updates exactly that key and keeps the keys distinct. |
| HashTables.Hash | hashtable.c:21-26 | The bucket index lies in [0, max_range). |
| HashTables.BucketViewUpdate | hashtable.c:49-53 | Adding a key changes only the bucket that key hashes to. |
| HashTables.HashTable.constructor | hashtable.c:28-43 | n empty buckets and size 0. |
| HashTables.HashTable.Add | hashtable.c:45-58 | The mapping gets key ↦ value and no other key changes. The size grows by one exactly when the key was new. Every key stays in bucket `hash(key)`. |
| HashTables.HashTable.Get | hashtable.c:60-67 | The value mapped to the key, or 0 for a key never added. |
| HashTables.HashTable.Size | hashtable.c:69-73 | The number of distinct keys stored. |
| Riscv.GetOpType | riscv.c:19-54 | R, I, MEM or U exactly when the mnemonic is in that table, and UNKNOWN otherwise. |
| Riscv.OpTablesDisjoint | riscv.c:21-24 | No mnemonic is in two tables. |
| Riscv.ROpOf | riscv.c:132-174 | An R mnemonic names the operation whose branch runs. |
| Riscv.IOpOf | riscv.c:192-216 | An I mnemonic names the operation whose branch runs. |
| Riscv.MemOpOf | riscv.c:234-264 | A memory mnemonic names the operation whose branch runs. |
| Riscv.Strsep | riscv.c:102 | The token holds no delimiter. It is followed by the delimiter and the rest, or it is the whole text when there is no delimiter. |
| Riscv.Unspaced | riscv.c:66-80 | The result holds no ' ' and is the input when it had none. |
| Riscv.UnspacedAppend | riscv.c:70-77 | Removing spaces distributes over concatenation. |
| Riscv.RemoveSpaces | riscv.c:66-80 | The buffer is compacted in place to the C string with every ' ' deleted and the other characters in order, followed by a NUL. |
| Riscv.Atoi | riscv.c:94 | `atoi` gives a value of at most 0 after a '-', at least 0 otherwise, and 0 for an empty string or one that starts with neither a digit nor a sign. |
| Riscv.GetImmediate | riscv.c:83-95 | "0x" reads as a value of at least 0, "-0x" as one of at most 0, and text starting with neither a digit nor a sign as 0. |
| Riscv.HexRoundTrip | riscv.c:85-88 | `get_immediate` reads "0x" + hex digits of n as n. |
| Riscv.NegatedHexRoundTrip | riscv.c:89-92 | `get_immediate` reads "-0x" + hex digits of n as -n. |
| Riscv.DecimalRoundTrip | riscv.c:94 | `get_immediate` reads decimal text of z, signed, as z. |
| Riscv.ImmediateRoundTrip | riscv.c:83-95 | Any 32-bit word written as "0x" and hex digits reads back as that word. |
| Riscv.RegisterRoundTrip | riscv.c:121 | `atoi` after the leading 'x' (`RegisterNumber`) reads the register text "x" + decimal digits of r as r. |
| Riscv.Decode | riscv.c:102-113 | An unknown mnemonic is skipped. A decoded instruction carries the mnemonic it was written with, and its registers are in range. |
| Riscv.DecodeOperands | riscv.c:115-275 | The operand text is read in the format of the mnemonic's type. |
| Riscv.DecodeR | riscv.c:117-130 | The R operand text is never skipped. When it decodes, it gives an R instruction of the given operation with registers in range. |
| Riscv.DecodeI | riscv.c:180-190 | The I operand text is never skipped. When it decodes, it gives an I instruction of the given operation with registers in range. |
| Riscv.DecodeMem | riscv.c:220-230 | The memory operand text "reg1,offset(reg2)" is never skipped. When it decodes, it gives a memory instruction of the given operation with registers in range. |
| Riscv.DecodeU | riscv.c:269-275 | The U operand text is never skipped. When it decodes, it gives a U instruction with its register in range. |
| Riscv.DecodeFormat | riscv.c:115-275 | Decoding the text form of any instruction gives back that instruction. |
| Riscv.SpacesIgnored | riscv.c:113 | Spaces in the operand text do not change the decoded instruction. |
| Riscv.DecodeUnknownExample | riscv.c:107-110 | A mnemonic outside the tables is skipped. |
| Riscv.Parse | riscv.c:102-113 | The parsing half of `step` yields the decoded line. |
| Riscv.Execute | riscv.c:115-280 | After every supported instruction x0 reads 0. |
| Riscv.StepSpec | riscv.c:104-110 | An unknown mnemonic changes neither registers nor memory. |
| Riscv.RegisterOnly | riscv.c:115-216 | R, I and U instructions change only their destination register (and x0) and leave memory alone. |
| Riscv.Apply | riscv.c:115-278 | Executing an instruction keeps 32 registers and a memory whose every stored value is a byte. |
| Riscv.SetLessThanIsBoolean | riscv.c:162-164 | `slt` and `slti` (`RResult`, `IResult`) write 0 or 1. |
| Riscv.ImmediateLikeRegister | riscv.c:132-216 | `addi`, `andi`, `ori`, `xori` and `slti` compute what `add`, `and`, `or`, `xor` and `slt` compute, with the immediate as second operand. |
| Riscv.ShiftAmountLowBits | riscv.c:167-174 | `sll` and `sra` use only the low 5 bits of the shift amount. |
| Riscv.LoadUpperImmediate | riscv.c:277 | `lui` writes imm << 12. |
| Riscv.LoadStoredWord | riscv.c:234-258 | Loading a word (`LoadWord`) from where one was just stored (`StoreWord`) gives it back. |
| Riscv.LoadByteBound | riscv.c:246 | A loaded byte (`LoadByte`) is below 256. |
| Riscv.StoreByte | riscv.c:263 | Storing a byte keeps every stored value a byte. |
| Riscv.StoreWord | riscv.c:253-256 | Storing a word's four bytes keeps every stored value a byte. |
| Riscv.StoreThenLoad | riscv.c:234-258 | `sw` then `lw` at the same base and offset restores the stored word. |
| Riscv.StoreWordLoads | riscv.c:253-256 | After `sw`, the bytes at address .. address + 3 read back as the word's bytes, least significant first. |
| Riscv.StoreWordFootprint | riscv.c:250-256 | `sw` changes only the four bytes address .. address + 3. |
| Riscv.StoreByteFootprint | riscv.c:260-264 | `sb` changes only memory[address], storing the low byte of the base register, and no register but x0. |
| Riscv.LoadByteSignExtends | riscv.c:244-248 | `lb` loads the byte sign-extended to 32 bits. |
| Riscv.Signed | riscv.c:129-130 | Reading a word as a two's complement `int` gives a value in the 32-bit range. |
| Riscv.SignExtendByteValue | riscv.c:247 | Sign extension keeps the low byte and fills the upper bits with its top bit. |
| Riscv.Machine.Init | riscv.c:59-63 | The machine adopts the caller's registers and an empty 256-bucket memory. |
| Riscv.Machine.LoadWordAt | riscv.c:236-241 | The four bytes at the address, least significant first, read back as one word. |
| Riscv.Machine.StoreWordAt | riscv.c:252-256 | The four bytes of the word are stored at address .. address + 3, least significant first. |
| Riscv.Machine.LoadByteAt | riscv.c:246 | The byte stored at the address, or 0 when none was stored, as a value below 256. |
| Riscv.Machine.StoreByteAt | riscv.c:263 | The memory maps the address's key to the byte, and nothing else changes. |
| Riscv.Machine.Run | riscv.c:115-280 | Running a decoded instruction gives the registers and memory `Execute` assigns it, x0 cleared last. |
| Riscv.Machine.ExecuteMem | riscv.c:218-265 | The memory branch of `step` has the effect `Apply` gives it. |
| Riscv.Machine.ApplyInstr | riscv.c:115-278 | The format branch of `step` has the effect `Apply` gives it. |
| Riscv.Machine.Step | riscv.c:97-282 | The registers and memory after `step` are `StepSpec` of the decoded line applied to the state before. |

## Left out

- Reading input and printing output (`main` in DFS.java, EditDistance.java and UnionFind.java) is not modelled. This includes UnionFind's final answer `disjoint() - 1`.
- Allocation is modelled with Dafny objects. `malloc` failure is not modelled, nor the global pointers `init` sets up in riscv.c.
- Dfs.Dfs: it requires at least one node and a graph as `main` builds it. That means every edge appears once, in its tail's `neighbors` list, and all nodes and edges start fresh. With no nodes, the source fails at `nodes[0]`. The parameter `numEdges` is unused by the source.
- Dfs.Dfs: the stack of Edge objects is a sequence of frames. An input edge's frame names its tail and its position in the tail's list, and its fields live in the per-edge arrays. A placeholder edge's fields live in its frame. Edge types are an enumeration rather than the characters 't', 'f', 'b' and 'c'.
- Levenshtein.GetEditDistance: `StringBuilder` and its `reverse` are sequences. Java strings are sequences of `char`.
- DisjointSets.UnionFind.Find: the source throws on an out-of-range node; the model requires the node to be in range. Union does the same, and the constructor requires v ≥ 0.
- LinkedLists.LinkedList.Add: node keys are stored as `unsigned int` in linkedlist.c:13. That conversion is a bijection on 32-bit values, so keys are modelled as `int`.
- HashTables.Hash: the key is negated with unbounded integers. C's `-key` overflows for INT_MIN, which only matters for bucket counts that do not divide 2^31; the interpreter uses 256.
- Riscv.GetImmediate: it reads the digits up to the first non-digit. `strtol` and `atoi` also skip leading whitespace, accept a sign or a second "0x" after the prefix, and saturate or overflow on long digit strings. None of that is modelled, and the value is truncated to 32 bits.
- Riscv.Decode: text on which the C code would dereference NULL, read past a string, or index outside the register file is reported as `Malformed`. `Machine.Step` requires a line that is not malformed, since the C code's behaviour is undefined there.
- Riscv.Apply: signed overflow in `+`, `-` and `<<`, and right shifts of negative values, are undefined or implementation-defined in C. They are modelled as 32-bit two's complement wrap-around and as an arithmetic shift. The same holds for `(byte << 24) >> 24` in `lb` and for address arithmetic.
- Riscv.Machine.Step: `strcmp` inside the branches is replaced by the operation enumeration that `get_op_type` decoded. That enumeration is proved to name the same mnemonic.
