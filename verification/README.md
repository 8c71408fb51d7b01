# A verified model of SEAL: Path ORAM, oblivious dictionary, cipher, search

This project models the client side of the SEAL prototype in Dafny and proves what its
parts promise. It is self-contained: `dafny verify dfyconfig.toml` checks all of it.

- **Path ORAM.** `HeapLayout` is the bucket numbering `P`. `OramSpec` writes one access as
  a function on states (read a path, apply the operation to the stash, evict greedily
  from leaf to root). `OramInvariant` and `OramRefinement` prove that no block is lost or
  duplicated and that every run of accesses answers like a plain map, at every index but
  -1; `DummyIndex` shows what happens at that one.
  `EvictionOptimality` gives the exact stash size after eviction and shows that no legal
  placement does better. `Buckets` and `PathOram` are the imperative classes, proved step
  for step against `OramSpec`; their storage keeps a ghost log of what the server sees.
- **Cache and session.** `LruSpec` defines recency from the history of requests alone;
  `LruCache` is the class with its map and its list. `OdsSession` is a session of the
  oblivious data structure over that cache and an ORAM, with nodes sealed by the cipher;
  it is proved to behave like one flat id-to-node map, and what a cache that is too small
  loses is stated exactly. `Codecs` gives serializations of nodes and documents that meet
  what the session and the sub-ORAMs ask of one.
- **Dictionary.** `AvlTree` is the balanced tree on values. `Dictionary` is the recursion
  over node ids that reads and rewrites nodes through the session; a ghost tree laid out
  in the flat store ties each method to its tree function.
- **Cipher.** `Sm4` holds the 32-bit definition of GB/T 32907-2016 and the 64-bit words of
  the code; `Sm4Ecb` the array loops, padding and the string functions; `Base64` the
  encoder, decoder and line breaking; `Sm4Tables` the constants. `Sm4Field` says what the
  S-box is, in the field it comes from, and `Sm4Example` runs the standard's own example.
- **Search.** `Padding`, `Permutation`, `Decimal` are the steps of the adjustable scheme,
  `SubOrams` the ORAMs holding the documents, `Search` what the prepared data must look
  like and what follows from it, `Placement` the slots of the documents in the sub-ORAMs,
  and `EncryptedSearch` the client object that loads a table and answers keyword searches
  through the dictionary and the sub-ORAMs; its `Build` makes such a client from nothing.
- **Range queries.** `RangeTree` builds tree T1, adds the internal nodes by mutating
  `parent` pointers, searches a single covering node and filters it. `RangeSearch` is what
  the client keeps per column, the tree and sub-ORAMs in sorted order, with `search_range`
  over both and the loading of a whole table.
- `Powers`, `Sets`, `Lex`, `Wrappers` are support: powers and exact logarithms, finite
  sets, the byte order of strings, results and errors.

Strings are byte sequences. C++ exceptions are `Result` failures. Undefined behaviour that
the sources can reach (an index past the end of the permutation, a null child) is reported
as a failure here, so that a contract can say exactly when it happens. Random draws are
arbitrary values in their range; the deterministic word stream drawn from the secret key,
the dummy ids and the dummy keywords are arbitrary functions given from outside.

Seven places deserve a reader's attention, because the code differs from what one would
expect, and the model follows the code:

- A block index of -1 is the dummy marker, and `access` takes it from its callers. What is
  written to it into a fresh ORAM is gone at the next access
  (`DummyIndex.DummyIndexIsLost`). All runs on one index answer like a plain map if and
  only if the index is not -1 (`DummyIndex.RefinesExactly`); accesses to it in between do
  no harm to the others (`OramRefinement.RunRefines`).
- After padding, an original keyword has one entry more than `count` says, which is what
  the inclusive loop of `search` relies on. A keyword that only dummies have has no such
  spare entry, and the loop goes one slot past its run (`Search.DummyKeywordOverrun`). What
  comes back is foreign exactly when that slot holds an entry of another keyword whose id
  passes the filter (`Search.OverrunReturns`). Padding and preparing do produce this, for
  every table and every dummy keyword that is none of the table's and sorts before one of
  them (`Search.ForeignDocument`). The loop never leaves the permutation, because the
  number of tuples is odd however the padding goes (`Padding.LoadedSizeOdd`); the one
  exception is the table without a cell (`Search.LoopInBounds`). Dummy keywords that collide
  with real ones do no harm, so completeness needs no assumption that they differ.
- A node that the cache pushes out in mid-session is dropped, not written back: it falls
  back to what the ORAM holds of it. Nothing is lost exactly when nothing is pushed out or
  the ORAM holds it as it is (`OdsSession.Session.CachePut`); `OdsSession.Session.InsertTwo`
  loses a node. The client builds its cache with INT_MAX slots.
- The padding loops of `ODS_finalize` run read_count + 1 and write_count + 1 times. The
  padding value has no part in how many accesses the server sees
  (`OdsSession.Session.Finalize`).
- `single_range_cover` steps onto a null child for some query unless the width of the tree
  is 2^k with k >= 1 (`RangeTree.NeverFailsIff`); a query fails exactly when one of its
  keywords alone does (`RangeTree.FailsByKeyword`). The client's range, 1 .. 8, is safe.
- `search_range_helper` takes the row numbers that T1 gives it for positions in the sorted
  column. The rows that come back are the rows found, over all queries, exactly when
  sorting moved no row whose cell can be asked for (`RangeSearch.RightRowsIff`); in a
  column with the cells "2" and "1" the query 1 .. 1 gets the wrong row
  (`RangeSearch.WrongRow`).
- With exact logarithms the "not enough space" exception of the ORAM constructor is raised
  for a bucket size of 0 only (`PathOram.TooSmallIff`).

## Model

| member | source | states |
|---|---|---|
| HeapLayout.PositionRange | src/oram/OramReadPathEviction.cpp:169-177 | every position of a leaf and level is a bucket number, and lies between the sizes of the trees of `level` and `level + 1` levels |
| HeapLayout.PositionIs | src/oram/OramReadPathEviction.cpp:169-177 | the bucket is 2^level - 1 + leaf / 2^(levels - level - 1) |
| HeapLayout.LevelsDisjoint | src/oram/OramReadPathEviction.cpp:169-177 | positions at different levels never collide |
| HeapLayout.PositionParent | src/oram/OramReadPathEviction.cpp:169-177 | the position at a level is the heap parent of the position one level down |
| HeapLayout.PathsMeetUpward | src/oram/OramReadPathEviction.cpp:169-177 | two leaves that share a bucket share every bucket above it |
| HeapLayout.LeafLevelInjective | src/oram/OramReadPathEviction.cpp:169-177 | at the leaf level different leaves have different buckets |
| HeapLayout.EveryBucketOnAPath | src/oram/OramReadPathEviction.cpp:36-44 | each of the 2^levels - 1 buckets is on the path of some leaf |
| HeapLayout.PositionFitsInt | src/oram/OramReadPathEviction.cpp:169-177 | with at most 31 levels no position overflows a 32-bit int |
| EvictionOptimality.FitsIffDepth | src/oram/OramReadPathEviction.cpp:108 | the eviction test at a level holds exactly when the deepest bucket shared with the path is at that level or below |
| EvictionOptimality.EvictExactSize | src/oram/OramReadPathEviction.cpp:95-133 | after eviction the stash holds exactly the largest, over all levels k, of the number of blocks of depth at most k minus bucket size times (k + 1), or 0 |
| EvictionOptimality.OverflowIsMax | src/oram/OramReadPathEviction.cpp:95-133 | the overflow function is an upper bound of every level's excess and is attained by one of them or by 0 |
| EvictionOptimality.EvictOptimal | src/oram/OramReadPathEviction.cpp:95-133 | no assignment of stash blocks to levels that respects depths and bucket sizes leaves fewer behind than the greedy eviction |
| EvictionOptimality.StashEmptiesIff | src/oram/OramReadPathEviction.cpp:95-133 | the stash is emptied exactly when at every level k at most bucket size times (k + 1) blocks have depth at most k |
| EvictionOptimality.StepStashOptimal | src/oram/OramReadPathEviction.cpp:62-167 | optimality of the stash left by a whole request, at any index, from any state of the right shape |
| OramInvariant.ReadMoves | src/oram/OramReadPathEviction.cpp:69-76 | reading a path moves blocks to the stash: what the path held plus what the other buckets hold is what all buckets held |
| OramInvariant.EvictConserves | src/oram/OramReadPathEviction.cpp:95-133 | eviction neither loses nor duplicates a block, as multisets over stash and buckets |
| OramInvariant.EvictBuckets | src/oram/OramReadPathEviction.cpp:96-133 | buckets on the path end full-size with only blocks whose own path passes there; buckets off the path are untouched |
| OramInvariant.ChosenInOrder | src/oram/OramReadPathEviction.cpp:98-114 | the blocks that fit go in the order of the stash while there is room: each stands in the bucket behind as many as there are fitting ones before it |
| OramRefinement.StepContents | src/oram/OramReadPathEviction.cpp:62-167 | the blocks after a request at any index are the stash after the operation plus the buckets off the path |
| OramRefinement.StepRefines | src/oram/OramReadPathEviction.cpp:62-167 | a request answers and updates like a plain map: READ returns what the map holds or "", WRITE changes its index only; at index -1 the map stays |
| OramRefinement.StepBuckets | src/oram/OramReadPathEviction.cpp:69-133 | buckets off the accessed path are unchanged, the others are refilled to the bucket size |
| OramRefinement.StepKeepsInv | src/oram/OramReadPathEviction.cpp:69-133 | every request, index -1 included, keeps the path invariant: each index at most once, each bucketed block on its own path, each bucket at exactly the bucket size |
| OramRefinement.RunKeepsInv | src/oram/OramReadPathEviction.cpp:138-167 | and so does every sequence of accesses |
| OramRefinement.RunRefines | src/oram/OramReadPathEviction.cpp:138-167 | over every sequence of accesses with any indices and leaves, the replies at indices other than -1 and the final contents are those of a plain map |
| OramRefinement.RunLeaf | src/oram/OramReadPathEviction.cpp:157-165 | after every run a block has the leaf that the last access of the run to it drew, and the one it had before if there is none |
| OramRefinement.FreshInv | src/oram/OramReadPathEviction.cpp:44-60 | the constructor's state satisfies the invariant and stands for the empty map |
| DummyIndex.DummyIndexReadsStashOnly | src/oram/OramReadPathEviction.cpp:71-75 | a read of index -1 is answered from the stash alone, whatever the buckets hold |
| DummyIndex.DummyIndexIsLost | src/oram/OramReadPathEviction.cpp:71-93 | a value written under -1 into a fresh ORAM is not there at the next read, whatever leaves are drawn |
| DummyIndex.RefinesExactly | src/oram/OramReadPathEviction.cpp:138-167 | all runs on one index from a fresh ORAM of any size answer like a plain map if and only if the index is not -1 |
| Buckets.Bucket.AddBlock | src/oram/Bucket.cpp:57-63 | appends below the limit, silently drops at the limit (the limit taken as unsigned) |
| Buckets.Bucket.RemoveBlock | src/oram/Bucket.cpp:65-76 | removes the first block with the index, and says whether there was one |
| Buckets.BucketLimit.SetMaxSize | src/oram/Bucket.cpp:84-92 | fails and changes nothing exactly when a different size is already set, else sets it |
| Buckets.BucketLimit.ResetState | src/oram/Bucket.cpp:99-102 | the next SetMaxSize cannot fail |
| Buckets.Storage.ReadBucket | src/oram/ServerStorage.cpp:59-80 | returns the bucket and logs the read inside the capacity, fails without a log entry outside |
| Buckets.Storage.WriteBucket | src/oram/ServerStorage.cpp:82-102 | replaces exactly that bucket inside the capacity, fails outside |
| PathOram.Oram.constructor | src/oram/OramReadPathEviction.cpp:27-61 | sets the shared limit, draws a leaf for every block and fills every bucket with dummies: valid, and empty as a map |
| PathOram.TooSmallIff | src/oram/OramReadPathEviction.cpp:39-42 | the space exception is raised exactly for bucket size 0 |
| PathOram.NewOram | src/oram/OramReadPathEviction.cpp:27-61 | construction with its exception: it fails exactly for bucket size 0, then touching nothing, and otherwise yields a valid, empty ORAM |
| PathOram.RandomLeaf | src/oram/RandomForOram.cpp:46-56 | any value below the bound |
| PathOram.LevelsForLeast | src/oram/OramReadPathEviction.cpp:33-37 | the tree has the least number of levels that gives every block a leaf |
| PathOram.Oram.ReadPhase | src/oram/OramReadPathEviction.cpp:69-76 | appends the path's real blocks to the stash, reading root to leaf |
| PathOram.Oram.Apply | src/oram/OramReadPathEviction.cpp:78-93 | the stash after the operation and the data returned |
| PathOram.Oram.CollectForLevel | src/oram/OramReadPathEviction.cpp:98-114 | the bucket gets the first stash blocks that fit the level, up to the bucket size |
| PathOram.Oram.EraseFromStash | src/oram/OramReadPathEviction.cpp:116-126 | erases the first block of each listed index in turn |
| PathOram.RemoveAllChosen | src/oram/OramReadPathEviction.cpp:116-126 | with distinct indices, erasing by index leaves exactly the blocks that were not chosen |
| PathOram.Oram.EvictionPhase | src/oram/OramReadPathEviction.cpp:95-133 | the loop carries out the eviction function and writes leaf to root |
| PathOram.Oram.AccessHandler | src/oram/OramReadPathEviction.cpp:62-136 | read, operation and eviction together are the state function of an access; what the server sees is the trace of the old leaf |
| PathOram.Oram.Access | src/oram/OramReadPathEviction.cpp:157-167 | moves the block to the leaf drawn and no other, keeps the invariant, returns what the map holds, changes the map as the request says, and touches only the trace of the leaf the block had; at index -1 the map stays |
| PathOram.Oram.AccessDirect | src/oram/OramReadPathEviction.cpp:138-155 | the same with every block kept at its leaf, whatever tag the payload carries |
| PathOram.AccessTraceShape | src/oram/OramReadPathEviction.cpp:69-133 | the trace is the path read root to leaf and then written leaf to root, a function of the leaf and the number of levels |
| PathOram.Serve | src/oram/OramReadPathEviction.cpp:157-167 | over every sequence of accesses, what the server sees is one path after another, each to the leaf drawn when its block was last accessed, or to its first leaf |
| LruSpec.RunKeepsOrder | include/client/ClientCache.h:108-161 | over every history of gets and puts the list is duplicate-free, at most max_size long, ordered by last use, and holds for each key the item last put |
| LruSpec.EvictsLeastRecent | include/client/ClientCache.h:146-158 | put evicts when it overflows, and then exactly the item used longest ago |
| LruCache.Cache.Get | include/client/ClientCache.h:108-123 | returns the item and moves it to the front, or the blank item |
| LruCache.Cache.Put | include/client/ClientCache.h:131-161 | stores in front, returns the evicted item or the blank one and drops exactly that one, table and map stay a duplicate-free listing of each other |
| LruCache.Cache.Clear | include/client/ClientCache.h:204-209 | empties both the map and the table, whatever state they were in |
| LruCache.Cache.First | include/client/ClientCache.h:125-129 | some cached item, whichever the hash map enumerates first |
| LruCache.Cache.Pop | include/client/ClientCache.h:211-215 | removes that item from the map and leaves the table behind |
| OdsSession.OpensSealed | src/client/Client.cpp:208-218 | decrypting what finalization stores gives the node back |
| OdsSession.SealedIs | src/client/Client.cpp:208-218 | in what is stored both the data and the key are ciphertexts |
| OdsSession.Session.Start | src/client/Client.cpp:184 | opens a session without changing the flat map |
| OdsSession.Session.CacheHelper | src/client/Client.cpp:172-182 | one ORAM read with data and key decrypted; the ORAM's contents stay |
| OdsSession.Session.CachePut | include/client/ClientCache.h:131-161 | what any put does to the flat map: the node enters, and a node pushed out falls back to what the ORAM holds, or vanishes; nothing is lost exactly when nothing is pushed out or the ORAM holds it as it is |
| OdsSession.Session.InsertTwo | src/client/Client.cpp:164-168 | two insertions into an empty store with one cache slot leave only the second |
| OdsSession.Session.ReadNode | src/client/Client.cpp:37-46 | returns the last node written under the id, through cache, ORAM and cipher, whatever the cache's size; the flat map stays, but for a node pushed out of a full cache, which falls back to what the ORAM holds |
| OdsSession.Session.WriteNode | src/client/Client.cpp:48-53 | changes the flat map at the node's id only, if the id is stored, but for a node pushed out |
| OdsSession.Session.InsertNode | src/client/Client.cpp:164-168 | adds the node to the flat map without an ORAM access, but for a node pushed out |
| OdsSession.Session.PadWith | src/client/Client.cpp:198-204 | one access to address 0 for each turn of the padding loop; every node stays |
| OdsSession.Session.EvictCache | src/client/Client.cpp:206-220 | every cached node is written back, sealed, with one access each; the flat map is the same and the cache is empty |
| OdsSession.Session.Finalize | src/client/Client.cpp:193-234 | closes the session: the flat map is the same, every cached node is now in the ORAM, sealed, and both counters are 0; the server sees as many accesses as there were reads, cached nodes and writes, and two more, whatever the padding value |
| OdsSession.Session.Perform | src/client/Client.cpp:103-234 | a whole session from start to finalization, with any sequence of reads, writes and insertions, replies and ends like the flat map, if the cache has room for the live ids among those it names |
| OdsSession.FlatHoldsLast | src/client/Client.cpp:103-170 | after any sequence the flat map holds under each id the last node written or inserted there |
| AvlTree.RotationsKeepOrder | src/client/Client.cpp:371-411 | single rotations keep the in-order listing |
| AvlTree.RebalanceBalances | src/client/Client.cpp:338-369 | a tree whose balanced halves differ by at most 2 in height becomes balanced, at most one lower, and a balanced one is left alone |
| AvlTree.InsertInOrder | src/client/Client.cpp:307-336 | insertion is insertion into the ascending in-order list |
| AvlTree.OrderedIff | src/client/Client.cpp:307-336 | search order is the order of std::string on the keys, left to right |
| Lex.LessIff | src/client/Client.cpp:729-735 | a string is less than another exactly when it is a proper prefix of it or below it at the first difference |
| AvlTree.InsertContents | src/client/Client.cpp:307-336 | search order is kept; a new key adds exactly its item, an equal key changes no content |
| AvlTree.InsertBalanced | src/client/Client.cpp:307-369 | balance is kept and the height grows by at most 1 |
| AvlTree.InsertEqual | src/client/Client.cpp:323-335 | inserting a key that is there gives the identical tree |
| AvlTree.SizeAtLeastFib | src/client/Client.cpp:338-369 | a balanced tree of height h has at least F(h+2) - 1 keys |
| AvlTree.RunKeepsShape | src/client/Client.cpp:294-304 | order, balance and the Fibonacci bound after any sequence of insertions |
| AvlTree.LookupFinds | src/client/Client.cpp:263-280 | the descent finds an item exactly when the key is present, and an item with that key |
| AvlTree.RunLookup | src/client/Client.cpp:294-304 | after any sequence of insertions a key is found with the first item inserted under it |
| Dictionary.GetHeightIsHeight | src/utils.cpp:39-42 | get_height of a stored node is the height of its tree |
| Dictionary.RebalanceKeepsIds | src/client/Client.cpp:338-441 | rotations keep the node ids, each once |
| Dictionary.InsertKeepsIds | src/client/Client.cpp:307-336 | insertion keeps the ids unshared and adds at most the new one |
| Dictionary.Dict.RightRotate | src/client/Client.cpp:371-390 | the store spells out the rotated tree with true heights; other nodes are untouched |
| Dictionary.Dict.LeftRotate | src/client/Client.cpp:392-411 | likewise to the left |
| Dictionary.Dict.LeftRightRotate | src/client/Client.cpp:413-426 | the store spells out the double rotation |
| Dictionary.Dict.RightLeftRotate | src/client/Client.cpp:428-441 | the store spells out the other double rotation |
| Dictionary.Dict.Balance | src/client/Client.cpp:338-369 | the store spells out the rebalanced tree |
| Dictionary.Dict.InsertPriv | src/client/Client.cpp:307-336 | the store spells out the tree insertion, unshared, with stored heights equal to true heights; only nodes of the subtree and the new node change |
| Dictionary.Dict.InsertNodes | src/client/Client.cpp:294-304 | a session of insertions: ordered, balanced, unshared, and the tree of inserting all items; the cache needs room for the nodes the tree ends with |
| Dictionary.Dict.FindPriv | src/client/Client.cpp:263-280 | returns the node of the key exactly when present, with at most height-many node reads |
| Dictionary.Dict.Find | src/client/Client.cpp:236-244 | a session around one search; the store is the same afterwards |
| Sm4Tables.CkObeysRule | src/crypto/sm4.cpp:91-100 | each byte of the fixed parameters is (4i + j) * 7 mod 256 |
| Sm4Field.SboxRule | src/crypto/sm4.cpp:62-79 | each of the 256 entries is the affine map of the inverse, in GF(2^8) modulo x^8 + x^7 + x^6 + x^5 + x^4 + x^2 + 1, of the affine map of its index, and no other value is |
| Sm4Example.StandardExample | src/crypto/sm4.cpp:85-189 | the block and key 0123456789abcdeffedcba9876543210 give 681edf34d206965e86b3e94f536e4246, as annex A of the standard has it |
| Sm4.RoundsUndo | src/crypto/sm4.cpp:178-184 | the rounds under reversed subkeys on the reversed quad undo the rounds, for any subkeys |
| Sm4.BlockRoundTrip | src/crypto/sm4.cpp:166-189 | a block run through the cipher with reversed subkeys comes back |
| Sm4.LtLow | src/crypto/sm4.cpp:109-123 | the low 32 bits of the 64-bit transform are the standard's transform of the low 32 bits |
| Sm4.CalcRoundKeyLow | src/crypto/sm4.cpp:130-144 | the same for the key transform |
| Sm4.FLow | src/crypto/sm4.cpp:125-128 | the same for the round function |
| Sm4Ecb.SetKey | src/crypto/sm4.cpp:146-164 | the low halves of the 64-bit subkeys are the standard's key expansion |
| Sm4Ecb.SetKeyDec | src/crypto/sm4.cpp:210-218 | those subkeys in reverse order |
| Sm4Ecb.OneRound | src/crypto/sm4.cpp:166-189 | the output block is the standard's cipher of the input block under the low halves; other output bytes stay |
| Sm4Ecb.CryptEcb | src/crypto/sm4.cpp:220-232 | the buffer is the block cipher applied block by block |
| Sm4Ecb.EcbBlock | src/crypto/sm4.cpp:220-232 | block i of the output is the cipher of block i of the input |
| Sm4Ecb.EcbRoundTrip | src/crypto/sm4.cpp:220-232 | reversed subkeys undo the buffer loop |
| Sm4Ecb.Pad | src/crypto/sm4.cpp:234-253 | data, zeros and a count byte, a positive multiple of 16 bytes |
| Sm4Ecb.PadRoundTrip | src/crypto/sm4.cpp:234-273 | unpad takes away exactly what pad added, for every byte string |
| Sm4Ecb.UnpaddedIff | src/crypto/sm4.cpp:255-273 | unpad accepts exactly the buffers whose last byte is from 1 to 16 and not above their length, and cuts off that many bytes |
| Sm4Ecb.Encrypt | src/crypto/sm4.cpp:275-284 | the method computes the specified ciphertext |
| Sm4Ecb.EncryptIs | src/crypto/sm4.cpp:275-284 | the text is base64 of the data, zeros and a count byte, enciphered block by block under the first 16 bytes of the key |
| Sm4Ecb.Decrypt | src/crypto/sm4.cpp:286-296 | the method computes the specified plaintext or the error of base64 or padding |
| Sm4Ecb.EncryptDecrypt | src/crypto/sm4.cpp:275-296 | decryption returns every plaintext, empty included, under every key of at least 15 bytes (the string's terminator is the 16th) |
| Base64.PosOfCharOf | src/crypto/base64.cpp:34-61 | each of the 64 characters of either alphabet is read back as its position |
| Base64.PosOfCharIff | src/crypto/base64.cpp:34-61 | exactly the characters of the two alphabets are read, each as its position |
| Base64.Encode | src/crypto/base64.cpp:101-150 | the loop computes the group-wise encoding, which is the text of RFC 4648: the input bits in sixes, zero-filled, through the literal alphabet, and "=" or "." up to a multiple of four |
| Base64.EncodeIsText | src/crypto/base64.cpp:101-150 | the length, every character and the filling characters of the encoding of every byte string |
| Base64.Decode | src/crypto/base64.cpp:152-235 | the loop computes the chunk-wise decoding, with its errors, after optional removal of line breaks |
| Base64.EncodeDecode | src/crypto/base64.cpp:101-231 | decoding returns every byte string, for both alphabets |
| Base64.DecodeIff | src/crypto/base64.cpp:181-231 | a text decodes without error exactly when each chunk of four, or fewer at the end, starts with two readable characters and has readable ones or "=", "." or the end behind them |
| Base64.InsertLinebreaks | src/crypto/base64.cpp:63-79 | terminates on the growing string and yields the text in lines |
| Base64.LinesShape | src/crypto/base64.cpp:63-79 | all lines are exactly as wide as asked except a last one that is not empty |
| Base64.LinesRemoved | src/crypto/base64.cpp:161-168 | removing the newlines gives the text back |
| Base64.EncodePem | src/crypto/base64.cpp:86-89 | 64-column text that decodes to the input |
| Base64.EncodeMime | src/crypto/base64.cpp:91-94 | 76-column text that decodes to the input |
| Padding.Tally | src/client/Client.cpp:722-725 | counts every keyword's entries |
| Padding.AdjPadding | src/client/Client.cpp:623-649 | each original keyword is first padded to one entry more than the least power of x not below its count; then dummies follow up to x times that size and one more, so the number of tuples is a function of the table and x; every added tuple is a filler of an original keyword with the one word "but", or an entry under a drawn keyword with two drawn words, its id not below the size when made; originals keep one entry more than their count, keywords only dummies have are counted exactly, and nothing is removed |
| Padding.LoadedSizeOdd | src/client/Client.cpp:623-649 | the number of tuples after padding is odd, 1 for an empty table and 5 or more otherwise |
| Padding.RunOf | src/client/Client.cpp:729-743 | in a sorted list the entries of a keyword form one run as long as the keyword has entries |
| Padding.FirstOccurrence | src/client/Client.cpp:738-743 | maps every keyword to its first subscript |
| Padding.FirstIsBefore | src/client/Client.cpp:738-743 | the first occurrence is where the run begins |
| Padding.OccursOfMultiset | src/client/Client.cpp:729-735 | sorting keeps every keyword's number of entries |
| Padding.Sort | src/client/Client.cpp:729-735 | a permutation of the entries in which no key precedes, by the order of std::string spelled out, the one in front of it |
| Permutation.PseudoRandomPermutation | src/utils.cpp:104-129 | the shuffled vector, a permutation for any random words |
| Permutation.PrpIsPermutation | src/utils.cpp:118-126 | Fisher-Yates yields a permutation of 0 .. 2^base - 1 |
| Permutation.PrpHistory | src/utils.cpp:107-126 | the list starts as 0, 1, 2, ... and turn i exchanges place i with place i + word i mod (n - i), nothing else |
| Permutation.ShuffleIsFair | src/utils.cpp:118-126 | every permutation comes from some words, and any two words that give it draw the same places |
| Permutation.PermutationCovers | src/utils.cpp:118-126 | every slot number is hit |
| Permutation.GetBitsRange | src/utils.cpp:131-137 | both parts are in range and give the number back |
| Permutation.GetBitsInjective | src/utils.cpp:131-137 | equal parts exactly for equal numbers |
| Permutation.GetBitsSurjective | src/utils.cpp:131-137 | every pair in range is the split of a number below 2^base |
| Permutation.ArraySizeExact | src/client/Client.cpp:852-854 | the sub-array size is exactly 2^(base - alpha) |
| Permutation.SlotsDiffer | src/client/Client.cpp:859-867 | the two parts of a slot make up the permuted number of its subscript; two subscripts never share a slot, and every slot exists |
| Permutation.Place | src/client/Client.cpp:848-871 | no document is overwritten; the slot recomputed for subscript i holds document i (adj_insert_range, lines 780-801, has the same loop) |
| Decimal.IndexValueRoundTrip | src/client/Client.cpp:763-765 | the stored "first_count" string is split and parsed back to both numbers |
| Decimal.IndexValueIs | src/client/Client.cpp:765 | the stored string is the two numbers in decimal with an underscore between them |
| Decimal.DecimalText | src/client/Client.cpp:765 | decimal digits only, no leading zero, spelling the number |
| SubOrams.Load | src/client/Client.cpp:824-843 | one ORAM per sub-array holding every document sealed at its index; all stay valid under the one shared bucket limit |
| SubOrams.ReadFrom | src/client/Client.cpp:898-900 | reads one sub-ORAM, and no sub-ORAM's contents change |
| SubOrams.OpensSealedDoc | src/client/Client.cpp:835-837 | what was stored for a document is decrypted and read back as that document |
| Placement.PlaceAndLoad | src/client/Client.cpp:848-871 | the documents of a list of tuples are shuffled into sub-arrays and stored: the slot of every subscript holds its document, sealed |
| Placement.ReadSlot | src/client/Client.cpp:889-900 | the slot recomputed from the permutation is read and yields the document of the subscript; all stay stored |
| Search.ReadTable | src/client/Client.cpp:665-680 | the loops over columns and rows collect the table's entries |
| Search.EntriesAreCells | src/client/Client.cpp:672-679 | those are the cells, all of them and nothing else, keyed by path, column name and cell, with the row number as id and the row without its first cell as contents |
| Search.CellsListed | src/client/Client.cpp:672-679 | every cell is listed under path, column name and cell, in this order, with its row number and its row without the first cell |
| Search.TableIds | src/client/Client.cpp:669-674 | row numbers stay below the number of entries, so the dummy filter keeps real documents |
| Search.Prepare | src/client/Client.cpp:722-743 | from the entries read to the sorted list, a permutation of what padding makes, of the size that table and x give, the first occurrences, and counts that are least powers for keywords no dummy takes |
| Search.SearchComplete | src/client/Client.cpp:883-907 | for every original keyword the inclusive loop stays in bounds, visits exactly the keyword's run, and returns each of its documents with an id below the size exactly as often as it is listed, every real one of the table among them, and nothing of other keywords |
| Search.DummyKeywordOverrun | src/client/Client.cpp:641-648 | for a keyword only dummies have the loop visits the run and one slot behind it |
| Search.OverrunReturns | src/client/Client.cpp:889-907 | for such a keyword exactly its own documents come back and the one in the next slot; all of them are filed under the keyword if and only if that one is, or its id is filtered out |
| Search.ForeignDocument | src/client/Client.cpp:889-907 | it happens: for every table and every keyword that is none of the table's and sorts before one of them, if all dummies draw it and the least ids, the prepared list returns a document that is filed under a keyword of the table only |
| Search.LoopInBounds | src/client/Client.cpp:889-907 | for every keyword found the loop stays inside the permutation if and only if the table had a cell |
| EncryptedSearch.IndexesAfter | src/client/Client.cpp:759-774 | inserting one node per tuple leaves exactly one index value per keyword, the right one |
| EncryptedSearch.SearchClient.BuildNodes | src/client/Client.cpp:759-770 | the nodes, numbered on from node_count, without children |
| EncryptedSearch.SearchClient.InitOrams | src/client/Client.cpp:848-871 | the slot of every subscript holds its document, sealed; the dictionary is undisturbed |
| EncryptedSearch.SearchClient.AdjInsert | src/client/Client.cpp:753-778 | index and documents are in place for search |
| EncryptedSearch.SearchClient.AdjDataIn | src/client/Client.cpp:722-751 | the keyword half: a table is read, padded, sorted, indexed and placed. Whether it succeeds can be told from the table: alpha must not exceed the ceiling logarithm of the row count, if there is a column, nor that of the padded size, and the cache must hold one node per tuple; every cell is then listed under path, column name and cell, with its row; a failed call leaves the client empty |
| EncryptedSearch.SearchClient.Gather | src/client/Client.cpp:889-907 | the loop returns the filtered documents of slots iw .. iw + countw, or fails exactly when that leaves the permutation |
| EncryptedSearch.SearchClient.Search | src/client/Client.cpp:873-914 | end to end, through dictionary, cache, ORAMs and cipher: every row with the keyword is returned at least as often as the table has it and each entry of the keyword with an id below the size exactly as often as it is listed, nothing of other keywords; an unknown keyword gives nothing; it fails exactly for the dummy keyword of a table without a cell; the client stays loaded |
| EncryptedSearch.LoadAndSearch | src/client/Client.cpp:651-914 | after a table is loaded, the search for path, column name and cell run together returns the row of that cell, for every cell |
| EncryptedSearch.Build | src/client/Client.cpp:651-660 | from storage, limit, ORAM and cache to a client that is ready to load a table |
| RangeTree.FindAll | src/utils.cpp:158-169 | the ids filed under the keyword, in order |
| RangeTree.MatchesInOrder | src/utils.cpp:158-169 | an id stands behind as many ids as the items before it contribute |
| RangeTree.KeywordText | src/utils.cpp:179 | a keyword is the context and the number in decimal, with a minus sign for negative ones |
| RangeTree.Merge | src/utils.cpp:183-187 | lists of the right map appended to those of the left, keyword by keyword |
| RangeTree.MergeNeighbours | src/utils.cpp:183-187 | merging the maps of two adjacent ranges gives the map of the whole range |
| RangeTree.BuildTree | src/utils.cpp:171-202 | a bisecting tree in which every node's map is find_all restricted to its range, with fresh unique ids |
| RangeTree.CollectLevels | src/utils.cpp:211-230 | the breadth-first pass yields the tree level by level, left to right, no node twice |
| RangeTree.AddLevel | src/utils.cpp:236-248 | subscripts 1 and 2, 3 and 4, ... get one new parent over both; the first node keeps its own |
| RangeTree.AddInternalNodes | src/utils.cpp:204-251 | every level is paired up so, and every parent spans and contains its child |
| RangeTree.SingleRangeCover | src/utils.cpp:253-295 | terminates; fails exactly when it meets a null child; otherwise returns a node whose range contains the part of the query inside the tree and that holds all its ids, and where the two halves of a query end at nodes under one added parent, that parent |
| RangeTree.NeverFailsIff | src/utils.cpp:253-295 | no query at all, inside the range or sticking out of it, meets a null child exactly when the width is 2^k, k >= 1; otherwise already a query for one keyword does |
| RangeTree.FailsByKeyword | src/utils.cpp:253-295 | a query, whatever its bounds, meets a null child exactly when the query for one of its keywords, clamped to the range, does |
| RangeTree.Filter | src/client/Client.cpp:926-936 | the lists of the keywords in the range, by ascending keyword |
| RangeTree.AllIdsSplit | src/client/Client.cpp:926-936 | the lists of smaller keywords come first |
| RangeTree.SearchRange | src/client/Client.cpp:916-936 | for every query, exactly the ids of find_all for each keyword in it that the tree ranges over, whichever node was chosen |
| RangeTree.RangeQuery | src/client/Client.cpp:706-710 | the same from the parsed pairs on, for any bounds: build, add internal nodes, search |
| RangeSearch.LoadColumn | src/client/Client.cpp:780-822 | one column sorted by the order of std::string, put into a tree T1 over 1 .. 8 and, position by position, into sub-ORAMs of its own |
| RangeSearch.LoadTable | src/client/Client.cpp:651-751 | the whole of loading: the range structures of every column, then the keyword half; success can be told from the table; each column lists its cells with their rows, sorted, and a range query on it finds exactly the rows whose cell is the digit of a number asked for; the structures of different columns and of the keyword side share no ORAM, and a failed call leaves the client empty |
| RangeSearch.Column.SearchRange | src/client/Client.cpp:916-973 | through tree, permutation, ORAMs and cipher: the query finds the row numbers of the keywords in it, 1 .. 8, and returns what the sorted column has at these positions, or fails exactly when one of them is not in the permutation |
| RangeSearch.FoundMembers | src/client/Client.cpp:926-936 | the numbers found are those of the rows whose cell is a keyword asked for |
| RangeSearch.FoundInRange | src/client/Client.cpp:939-957 | on the rows of a table no query leaves the permutation |
| RangeSearch.RightRowsIff | src/client/Client.cpp:939-969 | for every column: all queries return the rows they found if and only if sorting left every row in place whose cell can be asked for |
| RangeSearch.WrongRow | src/client/Client.cpp:939-969 | a column loaded from the cells "2" and "1" answers the query 1 .. 1 with the row of "2" |
| RangeSearch.ColumnByRow | src/client/Client.cpp:665-680 | the tuples of a column come in the order of its rows, so the two statements above apply to every column of a table |

## Left out

- Transport and storage behind the bucket array: gRPC, protobuf, the SQL connector, runners, TLS keys, logging. Storage is an in-memory array of buckets.
- Serialization: the byte format is any pair of functions, the second undoing the first, with no node for the empty string; Codecs.NodesFaithful and Codecs.DocumentsFaithful give one.
- Random sources and libsodium: leaves are any value below the bound of this ORAM (the sources share one static bound among all ORAMs), the permutation words an arbitrary function of the position.
- Floating-point logarithms and powers: exact integer powers and ceiling logarithms.
- Machine widths: counters, ids and positions are unbounded integers except in the cipher; positions fit a 32-bit int up to 31 levels (PositionFitsInt), and dummy ids are not held below 2^32.
- std::sort: a stable insertion sort stands for it, and only sortedness and permutation are used.
- pos_tag, childrenPos, update_pos and find_pos_by_id: erased, since access_direct takes the leaf from position_map.
- PathOram.Oram.constructor: assumes that the space check has passed, which PathOram.NewOram makes, and at least one block, the logarithm of 0 being undefined.
- Padding.AdjPadding: needs x >= 2; below that the sources divide by the logarithm of 1 or 0.
- Sm4Ecb.EncryptDecrypt: keys under 15 bytes, where the sources read past the string, are excluded.
- Dictionary.Dict.Find: the overload for several keys at once is not modelled; it repeats find_priv inside one session.
- OdsSession.Session.Perform: needs a cache with room for the live ids that the session names; a smaller one may lose changes, as Session.CachePut states for each single put. Dict and SearchClient ask for room for all the nodes of the dictionary.
- ODS_access with DELETE, remove_priv, find_min and remove: unfinished in the sources, no caller.
- Loading a second file into the same client: adj_data_in appends sub-ORAMs that search never addresses, so the model loads one table.
- RangeSearch.LoadTable: a table with columns but no rows counts as a failure, since the sources take the logarithm of 0, and so does an index larger than the cache. Columns are told apart by number; in the sources two columns of one name share a map_key, the later tree replacing the earlier one.
- EncryptedSearch.SearchClient.Search: does not claim that every dummy is dropped; dummy ids exceed the number of entries only at the time they are made.
- RangeTree.Node: left and right are set once, in the constructor, where the sources assign them right after it; parent is updated in place as in the sources.
- The size of the range a cover returns, leakage, probability and the strength of the cipher.
