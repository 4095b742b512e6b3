# A verified model of libbpf's BTF code and of some BPF programs

The project models the parts of the repository that carry the most logic, and proves what they promise.

- **BTF deduplication** (`BtfTypes`, `Meaning`, `Forest`, `HypotSpec`, `BtfCompare`, `DedupInv`, `Copies`, `Merging`,
  `RefInv`, `DedupResult`, `BtfDedup`): the passes of `btf__dedup` over a graph of type descriptors, in place.
  `Meaning.Unfold` says what a type means: the tree of descriptors one reaches from it, cut at any depth. `Forwards` has
  what the one-definition rule is needed for, `DedupStrings` the string pass, and `SpelledDedup` both together.
- **BTF images** (`Ints`, `Bytes`, `BtfWords`, `BtfSection`, `BtfFile`): the binary format, read and written in both byte
  orders.
- **Building BTF** (`Strset`, `BtfNames`, `BtfEntries`, `BtfBuilder`, `BtfAppend`, `BtfSize`): the `btf__add_*` calls, joining two BTFs,
  and the size of a type.
- **The hash map** (`HashMap`) of libbpf, with its chains and its growth, refined to a multimap.
- **Line information** (`ProgLinfo`): records of a JITed program split by function, and searches in them.
- **The DNS responder** (`InternetChecksum`, `DnsExpress`, `DnsMessage`): a frame rewritten in place, and what the reply says
  to a reader of RFC 1035.
- **Counting connections** (`TcpConnect`): probes of many threads interleaved over shared maps.
- **The histogram** (`Log2Histogram`): slots by powers of two (`PowersOfTwo`), and the ranges printed for them.

Integers are unbounded in Dafny; where the source wraps or truncates, the model says so. `dafny verify dfyconfig.toml` checks
the project.

Terms used below. An input is *calm* if its kinds are all known and types that C text can refer to refer to such types only.
*Room* is that of the type section (`UINT_MAX` bytes) and of the string section (`BTF_MAX_STR_OFFSET`). One type is a *copy*
of another if there is a map from ids to ids, with that pair in it, that pairs descriptors equal but for their references,
and these pairwise equal or in the map; or a forward declaration with its definition (`Copies.CopyOf`).

## Model

| member | source | states |
|---|---|---|
| BtfDedup.DedupTypes | plugin/libbpf-test/libbpf/src/btf.c:3194-3252 | The type passes over a well-formed BTF, with or without base. On success every original id has a final id whose meaning is that of the original to every depth: in nominal reading for all inputs, as the descriptors stand without forward declarations, and with forwards read as their definitions under the one-definition rule. Surviving primitive and reference types are pairwise different; of surviving structures, each an original with its references replaced by final ids, none is made of a copy of what an earlier one is made of; a definition does not end as a forward. Base types are untouched, ids are gap-free and offsets tile the section. On calm inputs it succeeds exactly if no chain of reference types runs in a circle |
| SpelledDedup.Dedup | plugin/libbpf-test/libbpf/src/btf.c:3194-3252 | The string pass and the type passes together: with its names spelled out, every type means afterwards what it meant before, in nominal reading for all inputs and as the descriptors stand without forwards. On calm inputs it succeeds exactly if the strings find room and no chain of reference types runs in a circle |
| DedupStrings.StrSection.Dedup | plugin/libbpf-test/libbpf/src/btf.c:3503-3543 | The string pass. Fails with -ENOMEM exactly if some name finds no room, taken in order; else each type has its names at the place of their texts, in the base or in the new strings, and is otherwise as it was; base types stay. When it fails the types before the one that failed are renamed already |
| DedupStrings.StrSection.Kept | plugin/libbpf-test/libbpf/src/btf.c:3492-3502 | The new strings hold no string twice, none that the base has, and, the empty one apart, none that nothing names |
| DedupStrings.NamesTell | plugin/libbpf-test/libbpf/src/btf.c:3455-3490 | After the pass names with equal offsets read the same, and names that read the same have equal offsets if and only if they do not lie in the base at different places |
| DedupStrings.NameReads | plugin/libbpf-test/libbpf/src/btf.c:3455-3490 | Every name reads after the pass as before |
| DedupStrings.HalfRenamed | plugin/libbpf-test/libbpf/src/btf.c:3525-3542 | An input on which the pass fails, the strings stay as they were, and a type whose name was ab is named x |
| SpelledDedup.LabelsTell | plugin/libbpf-test/libbpf/src/btf.c:3545-3785 | Why later passes may compare names by offset: after the pass two types have equal labels if and only if their labels were equal with names spelled out |
| Forwards.RuleExact | plugin/libbpf-test/libbpf/src/btf.c:4403-4439 | What the one-definition rule is needed for. With it, the users of two definitions of a forward keep their meaning, forwards read as definitions, in every outcome of deduplication; without it there are two definitions whose users lose it in every outcome |
| Forwards.MeaningLost | plugin/libbpf-test/libbpf/src/btf.c:4403-4439 | An input of twelve types on which deduplication succeeds and a type does not keep its meaning, forwards read as definitions |
| Forwards.TwinsJoin | plugin/libbpf-test/libbpf/src/btf.c:4253-4276 | A struct that points at a forward and one of its name that points at a definition of that forward end as one type |
| DedupResult.ResultDeduplicated | plugin/libbpf-test/libbpf/src/btf.c:4722-4820 | From the invariant after the reference pass, compaction and remapping give the graph that `DedupTypes` promises: closed, renumbered without gaps, same meanings, nothing kept that could be shared |
| DedupResult.ForwardFreeMeaning | plugin/libbpf-test/libbpf/src/btf.c:4203-4363 | Without forward declarations each type and its final form have equal unfoldings as the descriptors stand, and linking forwards is no other reading of the result |
| BtfDedup.Dedup.Prep | plugin/libbpf-test/libbpf/src/btf.c:3843-3901 | All base types are mapped to themselves and filed; -EINVAL only for a kind that is not known |
| BtfDedup.Dedup.PrimType | plugin/libbpf-test/libbpf/src/btf.c:3909-4012 | One primitive type is mapped to a canonical type equal to it, or an enum to the definition of what it announces, or becomes canonical itself, and then no filed type equals it; mapped ids stay mapped and the invariant is kept |
| BtfDedup.Dedup.ResolveEnum | plugin/libbpf-test/libbpf/src/btf.c:3947-3991 | The canonical type found for an enum equals it or defines it; when none is found no filed type equals it, and every filed enum forward that it defines is mapped to it; the map stays a forest |
| BtfDedup.Dedup.ResolveTypeId | plugin/libbpf-test/libbpf/src/btf.c:4039-4044 | The loop ends, at the root of the id in the canonical map |
| BtfDedup.Dedup.ResolveFwdId | plugin/libbpf-test/libbpf/src/btf.c:4050-4064 | The loop ends, at the root of the id or, for a forward, at the structure it was linked to |
| BtfCompare.EqualEnum | plugin/libbpf-test/libbpf/src/btf.c:3598-3617 | True exactly if the descriptors are equal |
| BtfCompare.CompatEnum | plugin/libbpf-test/libbpf/src/btf.c:3646-3654 | True exactly if the enums are equal or one is the forward declaration of the other |
| BtfCompare.ShallowEqualStruct | plugin/libbpf-test/libbpf/src/btf.c:3693-3712 | True exactly if the structures are equal up to the types of their members |
| BtfCompare.EqualFnproto | plugin/libbpf-test/libbpf/src/btf.c:3791-3810 | True exactly if the prototypes are equal |
| BtfCompare.CompatFnproto | plugin/libbpf-test/libbpf/src/btf.c:3817-3837 | For two prototypes, true exactly if they are equal up to the types of return value and parameters |
| BtfCompare.IdenticalStructs | plugin/libbpf-test/libbpf/src/btf.c:4086-4108 | True exactly if both are the same structure down to the ids of the members |
| BtfCompare.Signature | plugin/libbpf-test/libbpf/src/btf.c:3545-3785 | The hash of any kind, computed by its loop, is a function of the descriptor, so equal descriptors hash alike |
| BtfDedup.Dedup.IsEquiv | plugin/libbpf-test/libbpf/src/btf.c:4203-4363 | The walk over two cyclic graphs ends, claims slots without changing claimed ones, and when it answers 1 the two types are matched and every slot it claimed has passed its local check together with all references; on calm inputs it never fails. It answers 1 for a type and its copy, and then the hypothetical map stays within the map of copies |
| BtfDedup.Dedup.HypotMapAdd | plugin/libbpf-test/libbpf/src/btf.c:3320-3335 | One more slot is claimed, and there are fewer unclaimed ones |
| BtfDedup.Dedup.ClearHypotMap | plugin/libbpf-test/libbpf/src/btf.c:3337-3345 | Every slot is unprocessed again |
| HypotSpec.PairsSame | plugin/libbpf-test/libbpf/src/btf.c:4203-4363 | Why an answer of `Dedup.IsEquiv` can be believed: once every claimed slot has passed its local check, which is what `Dedup.IsEquiv` ensures, each pair of the hypothetical map has equal unfoldings to every depth |
| BtfDedup.Dedup.MergeHypotMap | plugin/libbpf-test/libbpf/src/btf.c:4391-4452 | Merging keeps the map a forest whose ids all have the meaning, name and effective kind of their roots. Each pair of the hypothetical map is merged: a forward among the two ends at a type that is none, and the candidate of a structure that ended at a mapped structure ends at one too; when the canonical graph is not to be adjusted only forwards move; no structure becomes a root |
| Meaning.NominalKey | plugin/libbpf-test/libbpf/src/btf.c:4253-4276 | Ids of one nominal meaning have one name and one effective kind, a forward counting as what it announces |
| BtfDedup.Dedup.StructType | plugin/libbpf-test/libbpf/src/btf.c:4476-4532 | A structure ends up mapped, to itself or to an equivalent one filed before; to itself only if it is no copy of a structure that is canonical already; on calm inputs this does not fail |
| BtfDedup.Dedup.TryStruct | plugin/libbpf-test/libbpf/src/btf.c:4493-4521 | A candidate that the structure is a copy of is a hit; a hit is a structure of equal meaning in every reading the input admits; a miss leaves the mapping of the structure as it was; on calm inputs it does not fail |
| DedupResult.ResultStructs | plugin/libbpf-test/libbpf/src/btf.c:4476-4532 | Two structures that survive are two originals, with their references replaced by final ids, the later of which is no copy of the earlier |
| BtfDedup.Dedup.RefType | plugin/libbpf-test/libbpf/src/btf.c:4570-4694 | A reference type is canonicalised after what it refers to; the result is self-mapped and means the same; ids settled before are not changed; it ends, and succeeds where no chain of references runs in a circle |
| BtfDedup.Dedup.RefTypes | plugin/libbpf-test/libbpf/src/btf.c:4696-4709 | All ids are mapped at the end; the pass succeeds if and only if the reference types can be ranked, that is, no chain of them runs in a circle |
| BtfDedup.Dedup.CompactTypes | plugin/libbpf-test/libbpf/src/btf.c:4722-4768 | Canonical types are moved down in order without a gap, each with its offset and new id |
| BtfDedup.Dedup.MoveDown | plugin/libbpf-test/libbpf/src/btf.c:4740-4756 | The write pointer never passes the offset of a type still to be copied |
| DedupResult.NewIdOnto | plugin/libbpf-test/libbpf/src/btf.c:4722-4768 | Every new id is that of a canonical type: with `DedupResult.NewIdIncreasing`, a bijection onto a gap-free range |
| DedupResult.NewIdIncreasing | plugin/libbpf-test/libbpf/src/btf.c:4740-4756 | New ids increase strictly over the canonical types |
| BtfDedup.Dedup.RemapTypeId | plugin/libbpf-test/libbpf/src/btf.c:4776-4788 | Never -EINVAL for an id in range; the result is the new id of its canonical type |
| BtfDedup.Dedup.RemapType | plugin/libbpf-test/libbpf/src/btf.c:4800-4820 | All references of a type are replaced by final ids and nothing else changes |
| DedupResult.FinalMeaning | plugin/libbpf-test/libbpf/src/btf.c:4722-4820 | Moving and renumbering keep every meaning |
| DedupResult.ResultShared | plugin/libbpf-test/libbpf/src/btf.c:3909-4012 | Equal descriptors cannot both survive, as they are filed under one hash and frozen once filed |
| BtfSection.ParseTypeSec | plugin/libbpf-test/libbpf/src/btf.c:413-449 | Accepts exactly the sections that are made of descriptors, in either byte order, and gives where each starts; words end up native |
| BtfSection.ReadType | plugin/libbpf-test/libbpf/src/btf.c:288-327 | The size of the descriptor at a place, read in either byte order, or failure exactly if no descriptor stands there |
| BtfSection.BswapTypeRest | plugin/libbpf-test/libbpf/src/btf.c:336-411 | The words after the base are swapped, for every kind, and the base is not |
| BtfSection.BswapTypes | plugin/libbpf-test/libbpf/src/btf.c:1275-1289 | Swapping each descriptor rest first, base last, swaps every word of the section |
| BtfSection.StartsAt | plugin/libbpf-test/libbpf/src/btf.c:413-449 | The offset of a type is the size of all descriptors before it: offsets tile the section |
| BtfWords.DecodeWords | plugin/libbpf-test/libbpf/src/btf.c:288-411 | A descriptor is recovered from its words, for every kind and count |
| BtfWords.WordsDecode | plugin/libbpf-test/libbpf/src/btf.c:288-411 | Words that a descriptor is read from are the words it is written as |
| BtfFile.CheckHdr | plugin/libbpf-test/libbpf/src/btf.c:220-267 | Succeeds exactly if the header is acceptable in one of the byte orders; -ENOTSUP exactly for a swapped header of another length |
| BtfFile.BtfNew | plugin/libbpf-test/libbpf/src/btf.c:859-907 | Accepts exactly the images that mean something, in either byte order, and gives the header, descriptors, offsets and strings they mean |
| BtfFile.ReadsOnce | plugin/libbpf-test/libbpf/src/btf.c:859-907 | An image means at most one thing |
| BtfFile.GetRawData | plugin/libbpf-test/libbpf/src/btf.c:1250-1298 | The image in the byte order asked for, as far as its 32-bit size reaches, without the cache of it |
| BtfFile.ImageReads | plugin/libbpf-test/libbpf/src/btf.c:1250-1298 | The image reads back as the same header, descriptors and strings if its size fits 32 bits, and not at all otherwise |
| BtfFile.ImageTravels | plugin/libbpf-test/libbpf/src/btf.c:210-218 | An image written by a host of one byte order is read by a host of the other |
| BtfFile.TooManyPointers | plugin/libbpf-test/libbpf/src/btf.c:1254-1264 | An input whose size does not fit: a BTF of 357913940 pointers has no readable image |
| Strsets.Strset.constructor | plugin/libbpf-test/libbpf/src/strset.c:39-82 | Every string of the initial data is indexed, each at the first of the places where it starts |
| Strsets.Strset.AddStr | plugin/libbpf-test/libbpf/src/strset.c:142-178 | A known string is found where it is, a new one put at the end, and the data before stays; -ENOMEM exactly for want of room |
| BtfBuilder.Builder.AddStr | plugin/libbpf-test/libbpf/src/btf.c:1599-1619 | The offset stands for the string, in the base or here; the strings afterwards are those before and, if it is new, this one; the exact result, errors included |
| BtfBuilder.Builder.StrRoom | plugin/libbpf-test/libbpf/src/btf.c:1599-1619 | Without base a string is refused exactly if it does not fit the string section, with -ENOMEM |
| BtfBuilder.Builder.NameRoom | plugin/libbpf-test/libbpf/src/btf.c:1599-1619 | The same for a name, which takes no room when it is empty |
| BtfBuilder.KnownButRefused | plugin/libbpf-test/libbpf/src/strset.c:109-134 | A base that holds one long string, on which adding that string fails for want of room |
| BtfBuilder.Builder.Commit | plugin/libbpf-test/libbpf/src/btf.c:1632-1644 | One descriptor more, with the next id; header, offsets and section still describe the types |
| BtfBuilder.Builder.AddInt | plugin/libbpf-test/libbpf/src/btf.c:1837-1875 | Fails with -EINVAL exactly on bad arguments, otherwise exactly for want of room; else exactly this INT is appended |
| BtfBuilder.Builder.AddArray | plugin/libbpf-test/libbpf/src/btf.c:1980-2007 | The same for an array |
| BtfBuilder.Builder.AddComposite | plugin/libbpf-test/libbpf/src/btf.c:2010-2037 | The same for a STRUCT or UNION without members |
| BtfBuilder.Builder.AddEnum | plugin/libbpf-test/libbpf/src/btf.c:2189-2196 | The same for an enum without values |
| BtfBuilder.Builder.AddFwd | plugin/libbpf-test/libbpf/src/btf.c:2335-2361 | Fails with -EINVAL exactly for an empty name or an unknown kind, otherwise exactly for want of room; else a forward declaration is appended, that of an enum as an enum without values |
| BtfBuilder.Builder.AddFunc | plugin/libbpf-test/libbpf/src/btf.c:2439-2457 | The same for a function, with its linkage |
| BtfBuilder.Builder.AddVar | plugin/libbpf-test/libbpf/src/btf.c:2558-2594 | The same for a variable |
| BtfBuilder.Builder.AddDeclTag | plugin/libbpf-test/libbpf/src/btf.c:2695-2725 | The same for a declaration tag |
| BtfBuilder.Builder.AddField | plugin/libbpf-test/libbpf/src/btf.c:2089-2142 | Exactly when it fails and with what; else the last STRUCT or UNION has this member more and nothing else changes, as long as its count fits 16 bits |
| BtfBuilder.Builder.AddEnumValue | plugin/libbpf-test/libbpf/src/btf.c:2206-2252 | The same for a value of an enum; a negative value makes the enum signed |
| BtfBuilder.Builder.AddEnum64Value | plugin/libbpf-test/libbpf/src/btf.c:2283-2324 | The same for a 64-bit value, in two halves |
| BtfBuilder.Builder.AddFuncParam | plugin/libbpf-test/libbpf/src/btf.c:2505-2546 | The same for a parameter |
| BtfBuilder.Builder.AddDatasecVarInfo | plugin/libbpf-test/libbpf/src/btf.c:2647-2683 | The same for a variable of a section |
| BtfEntries.EntryReadsIff | plugin/libbpf-test/libbpf/src/btf.c:1627-1630 | The section with one more entry reads as the intended types if and only if the count before is below 65535 |
| BtfEntries.TooManyEntries | plugin/libbpf-test/libbpf/src/btf.c:1627-1630 | Past that the last type reads as one without entries |
| BtfEntries.PrototypeOverflows | plugin/libbpf-test/libbpf/src/btf.c:1627-1630 | An input: a prototype of 65535 parameters, and no reading of the section has one more |
| BtfBuilder.Builder.ReadsBack | plugin/libbpf-test/libbpf/src/btf.c:1250-1298 | After any calls, on a base or not, the image means what has been built exactly if its size fits 32 bits |
| BtfBuilder.Builder.Reload | plugin/libbpf-test/libbpf/src/btf.c:859-907 | Build, serialise, parse: accepted exactly if the size fits, and then with the same header, descriptors, offsets and strings, the byte order recognised |
| BtfAppend.AddBtf | plugin/libbpf-test/libbpf/src/btf.c:1729-1826 | Succeeds exactly if the source has no base, its types fit, and its strings, in order, find room. Old types stay, the types of the source follow in order, each with its references shifted alike and its names standing for the same texts, and exactly the new strings are added. It writes through a null pointer exactly if it fails over a string after adding one; on any other failure the destination is as it was |
| BtfAppend.PourTypesFits | plugin/libbpf-test/libbpf/src/btf.c:1652-1682 | Without a base the strings of a source find room whenever the destination has room for all of them as if each were new |
| BtfAppend.WriteThroughNull | plugin/libbpf-test/libbpf/src/btf.c:1809-1826 | An input for the write through a null pointer, built by calls: a nearly full destination and a source of two forwards, whose first name finds room and whose second does not |
| BtfAppend.EdgeKept | plugin/libbpf-test/libbpf/src/btf.c:1711-1724 | Where source type i refers to type r + 1, the appended type i refers to what type r + 1 has become: the source graph is embedded |
| BtfAppend.RewriteStr | plugin/libbpf-test/libbpf/src/btf.c:1652-1682 | The new offset stands for the same text, and so do all offsets in the cache, before and after; the strings added and the failures are those of `btf__add_str`, but for offsets met before |
| BtfSize.ResolveSize | plugin/libbpf-test/libbpf/src/btf.c:609-662 | The result is exactly that of the chain of at most 32 steps: the product of dimensions and base size when every partial product fits 32 bits, else -E2BIG, and -EINVAL without an end |
| BtfSize.SizeExact | plugin/libbpf-test/libbpf/src/btf.c:632-661 | For every chain that ends: the size is returned if and only if the product of the factors before the first zero fits 32 bits, so a size that fits is refused exactly if a factor is zero and that product does not fit |
| BtfSize.SizeFits | plugin/libbpf-test/libbpf/src/btf.c:609-662 | With dimensions and base above zero the size is returned if and only if it fits 32 bits |
| BtfSize.EmptyButTooBig | plugin/libbpf-test/libbpf/src/btf.c:641-644 | A graph of three arrays and an int in which the array has size 0 and its chain is refused with -E2BIG |
| BtfSize.EmptyRefused | plugin/libbpf-test/libbpf/src/btf.c:609-662 | The call on that graph returns -E2BIG |
| HashMaps.HashMap.Insert | plugin/libbpf-test/libbpf/src/hashmap.c:154-204 | What each strategy does to the pairs of every key, errors and the pair replaced included; growth reverses the pairs of each key |
| HashMaps.HashMap.Delete | plugin/libbpf-test/libbpf/src/hashmap.c:220-240 | The pair a search finds is gone and no other |
| HashMaps.HashMap.Find | plugin/libbpf-test/libbpf/src/hashmap.c:206-218 | The first pair of the key, if there is one |
| HashMaps.HashMap.KeyEntries | plugin/libbpf-test/libbpf/src/hashmap.h:173-185 | The iteration visits the pairs of the key, all of them and in their order |
| HashMaps.HashMap.FindEntry | plugin/libbpf-test/libbpf/src/hashmap.c:130-152 | The first matching entry of the chain and the link before it, found exactly if the key has pairs |
| HashMaps.HashMap.Grow | plugin/libbpf-test/libbpf/src/hashmap.c:101-128 | Entries are moved to their new buckets: the same pairs, those of each key reversed, twice the capacity and at least four |
| HashMaps.HashMap.Sizes | plugin/libbpf-test/libbpf/src/hashmap.c:95-99 | The counted fields agree with the pairs stored; the map grows exactly when it has no buckets or one pair more would fill more than three quarters of its capacity |
| HashMaps.InsertKeepsUnique | plugin/libbpf-test/libbpf/src/hashmap.c:154-204 | Without APPEND a key never gets a second pair: the map is a finite map |
| HashMaps.SearchAfterInsert | plugin/libbpf-test/libbpf/src/hashmap.c:154-204 | After a new pair has gone in, a search finds it under its key; under another key it finds what it found before if and only if the map did not grow or the first and last pair of that key are equal |
| HashMaps.SearchAfterGrowth | plugin/libbpf-test/libbpf/src/hashmap.c:101-128 | A real map of four APPEND calls on which a search finds the last pair appended before the growth and the first one after it |
| ProgLinfo.BpfProgLinfo.Dissect | plugin/libbpf-test/libbpf/src/bpf_prog_linfo.c:22-86 | Succeeds exactly if the records can be split among the functions, and finds that split |
| ProgLinfo.StartsIncrease | plugin/libbpf-test/libbpf/src/bpf_prog_linfo.c:46-77 | Start indices increase strictly and each start has the address of its function |
| ProgLinfo.CountsAddUp | plugin/libbpf-test/libbpf/src/bpf_prog_linfo.c:61-80 | The counts of the functions are positive and add up to the number of records |
| ProgLinfo.FitsLenMeans | plugin/libbpf-test/libbpf/src/bpf_prog_linfo.c:56-59 | With the last record at or after the start of the function, the unsigned check passes exactly if it lies within the length, or if the records span all 64-bit addresses |
| ProgLinfo.BpfProgLinfo.LfindAddrFunc | plugin/libbpf-test/libbpf/src/bpf_prog_linfo.c:180-216 | Within the slice of the function, the record just before the first one above the address, and when there is none |
| ProgLinfo.BpfProgLinfo.Lfind | plugin/libbpf-test/libbpf/src/bpf_prog_linfo.c:218-246 | The same over the instruction offsets of all records |
| ProgLinfo.BpfProgLinfo.FoundIsLast | plugin/libbpf-test/libbpf/src/bpf_prog_linfo.c:188-215 | In every function but the last the record found is the last one at or below the address |
| InternetChecksum.FoldTells | plugin/ciliumebpf/dnsExpress/dnsExpress.c:270-277 | Two folds of a 32-bit sum give all ones exactly if the sum is a positive multiple of 65535 |
| InternetChecksum.UpdateIpChecksum | plugin/ciliumebpf/dnsExpress/dnsExpress.c:250-287 | For data whose other words sum to less than 2^32: afterwards the one's complement sum of all words is all ones, and only the checksum has changed |
| InternetChecksum.ChecksumEitherOrder | plugin/ciliumebpf/dnsExpress/dnsExpress.c:250-287 | A checksum is right in one byte order if and only if it is right in the other (section 2(B) of RFC 1071) |
| DnsExpress.ParseQuery | plugin/ciliumebpf/dnsExpress/dnsExpress.c:77-143 | The length and key of the question up to the first zero byte, or -1 exactly if none ends the name within 256 bytes and the frame |
| DnsExpress.ModifyDnsHeader | plugin/ciliumebpf/dnsExpress/dnsExpress.c:174-187 | The header becomes that of a response with recursion available and one answer; the other fields and bytes stay |
| DnsExpress.SwapMac | plugin/ciliumebpf/dnsExpress/dnsExpress.c:236-246 | The two addresses change places and nothing else changes |
| DnsExpress.Frame.XdpDns | plugin/ciliumebpf/dnsExpress/dnsExpress.c:290-471 | A frame is sent back exactly if it is a query the table knows and the size can be changed; then addresses and ports are swapped, lengths set, checksum right, question kept, answer in place; any other frame is left as it is, but for the header of a query that could not be resized |
| DnsMessage.QuestionKept | plugin/ciliumebpf/dnsExpress/dnsExpress.c:77-143 | With a table of addresses only, a reply implies that the whole question was in the frame and comes back byte for byte |
| DnsMessage.ReplyReads | plugin/ciliumebpf/dnsExpress/dnsExpress.c:290-471 | Read as RFC 1035 says, the reply is a well-formed message with the stored address and time to live exactly if the query was plain: a 20-byte IP header, one question without zero bytes in its labels, no other records |
| DnsMessage.AdditionalRecord | plugin/ciliumebpf/dnsExpress/dnsExpress.c:174-187 | An input: no reply to a query with one additional record reads |
| DnsMessage.AnswerReads | plugin/ciliumebpf/dnsExpress/dnsExpress.c:189-202 | The 16 bytes decode to a pointer to the question, type A, class IN, the stored time to live and address (sections 4.1.3 and 4.1.4 of RFC 1035) |
| DnsMessage.FirstZeroEndsName | plugin/ciliumebpf/dnsExpress/dnsExpress.c:98-138 | The name ends where RFC 1035 says exactly if no label holds a zero byte |
| DnsMessage.ZeroInLabel | plugin/ciliumebpf/dnsExpress/dnsExpress.c:98-138 | An input: a label of two bytes, one of them zero |
| DnsMessage.WholeQuestions | plugin/ciliumebpf/dnsExpress/dnsExpress.c:110-131 | Only whole questions are answered if and only if the table has no readable key of type 0 and class 0 |
| DnsMessage.ReplyPasses | plugin/ciliumebpf/dnsExpress/dnsExpress.c:338-339 | A reply is no query, so it is never answered |
| TcpConnect.CountersAreAdds | plugin/libbpf-test/okk/tcpconnect.bpf.c:112-158 | Under every interleaving each counter is the number of completed additions for its key, modulo 2^64 |
| TcpConnect.NeverReset | plugin/libbpf-test/okk/tcpconnect.bpf.c:112-127 | A step leaves a live counter or adds one to it, the latter exactly if it logs an addition: no insertion resets it |
| TcpConnect.LostForRoomOnly | plugin/libbpf-test/okk/tcpconnect.bpf.c:112-127 | A connection on its way to a counter is lost exactly if the counter is missing when it is to be inserted and there is no room for it |
| TcpConnect.CountedWasRecorded | plugin/libbpf-test/okk/tcpconnect.bpf.c:93-236 | Every counted connection uses the socket that the same thread recorded past the filters, with no other event of the thread between |
| TcpConnect.RunUses | plugin/libbpf-test/okk/tcpconnect.bpf.c:198-236 | A thread never counts, traces or drops more than it has recorded |
| TcpConnect.Tracer.FilterPort | plugin/libbpf-test/okk/tcpconnect.bpf.c:76-88 | True exactly if there are ports to filter by and the port is not among them |
| TcpConnect.Tracer.Step | plugin/libbpf-test/okk/tcpconnect.bpf.c:93-236 | One atomic step of a probe extends the run by that step |
| Log2Histogram.Log2 | plugin/libbpf-test/tcprtt.bpf.c:50-61 | The position of the highest bit, for every 32-bit value, and 0 for 0 |
| Log2Histogram.Log2l | plugin/libbpf-test/tcprtt.bpf.c:63-71 | The same for every 64-bit value |
| Log2Histogram.Range | plugin/libbpf-test/trace_helpers.c:920-924 | The printed bounds of a row |
| Log2Histogram.InRange | plugin/libbpf-test/trace_helpers.c:920-924 | A value lies in the range of a row exactly if the row is the position of its highest bit |
| Log2Histogram.RangesTile | plugin/libbpf-test/trace_helpers.c:920-924 | The ranges start at 0 and follow one another without gap or overlap |
| Log2Histogram.SlotHolds | plugin/libbpf-test/tcprtt.bpf.c:113-115 | The range of the slot of a sample holds it exactly if the sample was not clamped |
| Log2Histogram.Hist.Record | plugin/libbpf-test/tcprtt.bpf.c:110-120 | The slot of the sample counts one more, modulo 2^32, and no other; latency and count only in extended mode |
| Log2Histogram.Hist.SlotsAddUp | plugin/libbpf-test/tcprtt.bpf.c:113-116 | The slots add up to the number of samples if and only if no counter has wrapped |

## Findings

Where the code does not do what its text or its purpose says. Each is shown by a concrete input or an if-and-only-if.

- The comment at `plugin/libbpf-test/libbpf/src/hashmap.h:93-96` promises that a search after APPEND finds the pair inserted
  last. Growing reverses the pairs of every key, so it may find another one: `HashMaps.SearchAfterGrowth`, and the exact
  condition in `HashMaps.SearchAfterInsert`.
- The size of an image is kept in 32 bits (btf.c:1254, 1264) while the builder admits a type section of nearly that size
  alone. `BtfFile.ImageReads` has the exact condition, `BtfFile.TooManyPointers` an input.
- The entry calls do not check the 16-bit count of entries (btf.c:1627-1630). At 65535 it goes back to 0:
  `BtfEntries.EntryReadsIff`, and `BtfEntries.PrototypeOverflows` for an input.
- `btf__resolve_size` refuses some empty arrays as too big, depending on the order of the dimensions: `BtfSize.SizeExact`
  has the exact condition, `BtfSize.EmptyRefused` an input.
- The length check of `dissect_jited_func` is done in unsigned arithmetic: `ProgLinfo.FitsLenMeans`.
- `strset__find_str` fails for want of room even for a string that is there, so a nearly full base lets every `btf__add_str`
  on top of it fail: the first case of `Strings.Find`, and `BtfBuilder.KnownButRefused` for an input.
- When `btf__add_btf` fails over a string it clears the strings added so far through `strs_data` (btf.c:1817), which has been
  null since `btf_ensure_modifiable` (btf.c:1545). It writes there exactly if a string has been added before the failure:
  `fault` in `BtfAppend.AddBtf`, and `BtfAppend.WriteThroughNull` for an input.
- When the string pass of `btf__dedup` fails, the types it has come past keep offsets into strings that are thrown away:
  `DedupStrings.StrSection.Dedup`, and `DedupStrings.HalfRenamed` for an input.
- The DNS responder answers a question whose type and class lie outside the frame if the table has a key of type 0 and class
  0 (`DnsMessage.WholeQuestions`), takes a zero byte inside a label for the end of the name
  (`DnsMessage.FirstZeroEndsName`, `DnsMessage.ZeroInLabel`), keeps the counts of records it cuts off, so that the reply to
  a query with additional records does not read (`DnsMessage.ReplyReads`, `DnsMessage.AdditionalRecord`), and hands a frame
  it could not resize on with a response header (`DnsExpress.Frame.XdpDns`).
- Without the one-definition rule for forwards, dedup does not keep the meaning that types have with forwards read as their
  definitions: a struct that points at a forward is merged with one that points at one definition here and at another there.
  `Forwards.RuleExact` has the exact condition, `Forwards.MeaningLost` an input.

## Left out

- BtfDedup.DedupTypes: every type id that a descriptor refers to must be that of a type there is, and one that a base type refers to that of a base type; `btf_parse_type_sec` does not check it, and the source goes by a null type or beyond its maps otherwise. FWDs are pairwise different only if none carries a size. Structures of equal meaning that are no copies of each other, such as a struct that points at itself and one that points at a second of its name which points back, may both survive: the walk compares graphs, not unfoldings. Meaning as the descriptors stand is stated for inputs without forwards.
- BtfDedup.Dedup.IsEquiv: that it answers 1 is promised for copies; other pairs of equal meaning may be answered either way.
- SpelledDedup.Dedup: type ids and string offsets must lie in the types and the strings, as for `DedupTypes` and the string pass alone. The strings are renamed before base types are filed, so an unknown kind in the base is found after the names have changed and not before. Names that `.BTF.ext` holds are not renamed.
- DedupStrings.StrSection.Dedup: string offsets must lie in the strings, which `btf__parse` does not check; the source looks up a null string otherwise.
- BtfDedup.Dedup.Candidates: lists what is filed under a hash in any order; the chains of the hash map used for it are the subject of `HashMap`, and their order is not carried over.
- HashMaps.HashMap.Insert: allocation does not fail. `HashMap` takes the hash and the comparison as functions that agree with each other.
- BtfSection.ParseTypeSec: a section is seen as 32-bit words. Its length in bytes is a parameter, so a length that is not a multiple of four is covered.
- BtfFile.GetRawData: the bytes beyond the 32-bit size are cut off; what the source does with the memory there is not modelled.
- BtfBuilder.Builder.Split: the types of the base take part by their number only, and its strings as a string set that this BTF does not change.
- BtfAppend.AddBtf: works on the descriptors of the source as read by `btf_parse_type_sec`; string offsets of the source must lie in its strings, which `btf_new` does not check; what happens after the write through a null pointer is not described, and the cached raw data is not modelled.
- BtfAppend.RewriteStr: the offset must lie in the strings of the source; the source adds a null string otherwise.
- ProgLinfo.BpfProgLinfo.LfindAddrFunc: records are indexed, so that the 32-bit products `start * jited_rec_size` and `start * rec_size` (bpf_prog_linfo.c:198, 205) do not wrap as they do for sections above 4 GB.
- ProgLinfo.BpfProgLinfo.Lfind: likewise for `nr_skip * rec_size` (bpf_prog_linfo.c:231).
- DnsExpress.Frame.AdjustTail: whether the driver grants a new size is a parameter, and bytes gained are arbitrary.
- TcpConnect.Tracer.Step: keys are read from the socket at the exit as the kernel gives them, IPv4 and IPv6 counters are one map with keys of two forms, and a thread runs one probe at a time. Whether there is room for a key is a parameter.
- Log2Histogram.Hist.Record: one histogram; how it is looked up by address is the same as in `TcpConnect`, and the filters before it are left out.
- The `.BTF.ext` section, ELF and raw files, loading into the kernel, and searches by name.
- Failing allocations and the rollback after them; growth of buffers by `libbpf_add_mem`.
- Splitting the type section on demand into modifiable parts, and the caches of raw data.
- The EDNS and DEBUG parts of dnsExpress.c.
- Events sent to user space by tcpconnect beyond that they are sent; printing of histograms beyond the ranges.
- All other probes, the Go and Python programs, and the syscall wrappers: they hold no logic of this kind.
