# Verified model of the rtnetlink codec

The crate turns rtnetlink octets into nested enums and back. This project models that
printer/parser pair where it is recursive, depends on context or computes its own offsets,
and proves how far parsing undoes emitting, what every successful parse guarantees, and that
the loops compute what the recursive description says. `dafny verify dfyconfig.toml` checks it.

| files | what they model |
|---|---|
| `Wire`, `Framing`, `Bits`, `Permutations` | octets, integers, the attribute iterator and emitter, bitwise operations, reordering |
| `Mpls`, `Srv6`, `Families`, `Encap`, `RouteAttributes` | label stacks, segment-routing headers, addresses, encapsulations, the non-recursive route attributes |
| `RouteTree`, `Route`, `RouteCodec`, `RouteLayout` | the attribute/next-hop recursion, the two-pass message, both as loops over buffers, and the layout of what is emitted |
| `LinkAttributes`, `Link`, `LinkKinds`, `LinkDiscipline`, `LinkCodec`, `LinkEmit` | link attributes, the info state machine, the names it selects by, veth recursion, its depth, the parse loops and the in-place emitter |
| `TcSelector`, `TcActions`, `Tc`, `TcKinds` | u32 selectors, two-pass actions, the running kind of traffic control messages, the names it selects by |
| `Mdb`, `Tunnel`, `Nexthop`, `ExtMask` | the lenient three-level decoder, the hand-offset encoder, group records, the flag split |
| `Envelope` | the message types, their dispatch and the short forms |
| `Codes` | every number on the wire written out, and what each decoder does with each type and length |

A pure function describes each encoding and each decoding; the code that loops or writes into
a buffer is a method proved to compute that function. A decoder returns `Ok`, `Err` or, where
the crate slices out of range, `Panic`. The main results have the form "for every message whose
outermost attributes fit their 16-bit length fields, parse of emit is the identity if and only
if ...", where the condition is something that can be read off the message; the other direction
comes from lemmas that describe everything a parse can return.

## What the proofs brought to light

- A next-hop id (`Nhid`) is emitted under type 30, which has no parse arm, so it always comes
  back as `Other` (src/route/attribute.rs:189). `Route.Coherent` excludes it.
- The segment byte count of a segment-routing header is computed in 8 bits
  (src/route/seg6.rs:176), so the header decoder expects (segments_left + 1) mod 16 segments.
  The two header decoders agree exactly up to segments_left = 14.
- TLVs of a segment-routing header are parsed but never emitted.
- Options of an unknown traffic-control kind gain a header each time they are parsed and emitted.
- `MdbAttribute::Other` loses the flag bits of its type; a nexthop `Encap` comes back as `Other`.
- The two pairs of address families that share a number cannot both come back.

## Model

| member | source | states |
|---|---|---|
| `Framing.ScanEncode` | src/mdb/entry.rs:182-193 | Framing attributes and iterating over them gives the same attributes back, whatever octets follow |
| `Framing.ScanConcat` | src/mdb/entry.rs:95-113 | An aligned, cleanly framed buffer can be iterated independently of what is appended to it |
| `Framing.ScanBounds` | src/route/next_hops.rs:74-82 | On any octets, every attribute the iterator yields fits a 16-bit length, and together they fit the buffer |
| `Framing.DecodeAllOk` | src/link/message.rs:50-59 | A list of attributes decodes to a given result exactly when the framing is clean and every element decodes on its own to the element at its place |
| `Framing.ListSurvives` | src/link/attribute.rs:449-458 | A list of attributes survives emit and parse exactly when each element does |
| `Framing.ParseList` | src/link/attribute.rs:459-468 | The frame-parse-push loop computes the element-wise decoding, including which failure is reported |
| `Framing.EmitNlas` | src/link/message.rs:24-29 | Writing attributes at running offsets leaves exactly their framed encoding in the buffer and touches nothing else |
| `Mpls.WordRoundTrip` | src/route/mpls.rs:124-148 | Unpacking a 32-bit word with masks and shifts and packing it again is the identity on every word |
| `Mpls.LabelRoundTrip` | src/route/mpls.rs:124-148 | Packing and unpacking a label is the identity exactly on labels of 20, 3, 1 and 8 bits |
| `Mpls.UnpackFields` | src/route/mpls.rs:124-137 | Masking and shifting a word gives its upper 20 bits, the next 3, the next 1 and the last 8, per section 2.1 of RFC 3032 |
| `Mpls.PackFields` | src/route/mpls.rs:139-148 | Shifting and or-ing fields within their widths gives the word with those digits |
| `Mpls.LabelsRoundTrip` | src/route/mpls.rs:150-175 | Every stack of labels within their widths survives emit and parse |
| `Mpls.LabelsPrefix` | src/route/mpls.rs:150-160 | n octets decode to n/4 labels, whose encoding is the longest prefix of the octets that is a multiple of 4 |
| `Mpls.ParseLabels` | src/route/mpls.rs:151-159 | The indexed loop returns the labels of the whole 4-octet groups |
| `Mpls.EmitLabels` | src/route/mpls.rs:167-174 | The indexed loop writes exactly the encoded stack at its place |
| `Srv6.SrhNormalises` | src/route/seg6.rs:129-231 | A header whose count fits its segments comes back with its segments and without its TLVs, which are never emitted |
| `Srv6.SrhRoundTrip` | src/route/seg6.rs:129-231 | A header survives exactly when it has as many segments as its wrapped count announces and no TLVs |
| `Srv6.HmacIsRead` | src/route/seg6.rs:194-227 | A header followed by an HMAC TLV, written field by field with any reserved bits, decodes to the header with exactly that TLV, whatever octets follow |
| `Srv6.OtherTlvs` | src/route/seg6.rs:194-215 | Any other TLV leaves the list empty, an HMAC of another length and fewer than four octets are errors, a cut HMAC panics |
| `Srv6.SrhOctets` | src/route/seg6.rs:129-192 | On any octets, a header that decodes is written back as the octets it was read from, up to its TLVs |
| `Srv6.TunnelNormalises` | src/route/seg6.rs:289-363 | A tunnel with one header comes back without TLVs, for any segment count |
| `Srv6.TunnelRoundTrip` | src/route/seg6.rs:289-363 | A tunnel encapsulation survives exactly when it has one header without TLVs, for any number of segments |
| `Srv6.TunnelOctets` | src/route/seg6.rs:289-363 | A tunnel decodes exactly from a mode, a fixed part and whole segments, and is then written back as the same octets |
| `Srv6.DecodersAgree` | src/route/seg6.rs:151-363 | On payloads of exactly 8 + 16 (segments_left + 1) octets the two header decoders agree if and only if segments_left is at most 14 |
| `Srv6.ParseSegments` | src/route/seg6.rs:176-200 | The loop over a shrinking slice collects the 16-octet segments in order |
| `Srv6.EmitSrh` | src/route/seg6.rs:135-149 | The loop with its advancing index writes exactly the encoded header |
| `Srv6.EmitTunnel` | src/route/seg6.rs:354-363 | The loop over headers writes exactly the encoded tunnel |
| `Families.FamilyRoundTrip` | src/address_family_linux.rs:64-172 | Code to family to code is the identity; family to code to family is the identity exactly on canonical families (not `Local`, not `Route`, no `Other` with a known code) |
| `Families.AddressRoundTrip` | src/route/address.rs:34-67 | An address parses back under a family exactly when it has the form of that family |
| `Families.AddressSound` | src/route/address.rs:34-48 | Whatever parses under a family has the form of that family |
| `Families.ViaRoundTrip` | src/route/via.rs:36-76 | A tagged gateway survives exactly when its tag and address agree |
| `Encap.EncapTypeRoundTrip` | src/route/lwtunnel.rs:42-79 | Encap type to code to encap type is the identity exactly on canonical types |
| `Encap.EncapsRoundTrip` | src/route/lwtunnel.rs:118-194 | A list of encapsulations of the variant of its encap type comes back, up to TLVs |
| `Encap.EncapsSound` | src/route/lwtunnel.rs:147-194 | Whatever decodes under an encap type has the variants of that type |
| `Encap.NormalEncapsIsIdentity` | src/route/seg6.rs:129-149 | Nothing is lost exactly when no header in the list carries a TLV |
| `Encap.LocalRoundTrip` | src/route/seg6local.rs:46-175 | Every local segment-routing attribute, with nested counters, flavors and header, comes back up to TLVs |
| `Encap.CountersRoundTrip` | src/route/seg6local.rs:278-350 | Nested counters survive emit and parse |
| `Encap.FlavorsRoundTrip` | src/route/seg6local.rs:354-420 | Nested flavors survive emit and parse |
| `RouteAttributes.LeafRoundTrip` | src/route/attribute.rs:124-306 | Every non-recursive attribute that fits the family, route type and encap type comes back, up to TLVs |
| `RouteAttributes.LeafSound` | src/route/attribute.rs:201-331 | Whatever a non-recursive attribute decodes to fits the family, route type and encap type it was decoded under |
| `RouteAttributes.LeafLenIs` | src/route/attribute.rs:92-122 | The announced value length is the number of octets emitted |
| `RouteAttributes.NhidIsLost` | src/route/attribute.rs:185-331 | A next-hop id is emitted under a type no arm parses: it always comes back as `Other` |
| `RouteAttributes.MetricsRoundTrip` | src/route/metrics.rs:55-204 | Nested metrics survive emit and parse |
| `RouteAttributes.RouteTypeRoundTrip` | src/route/header.rs:376-420 | Route type and code convert back and forth exactly on canonical values |
| `RouteTree.ValueLenIs` | src/route/attribute.rs:92-122 | At every depth the announced length of a value is the emitted length |
| `RouteTree.HopLenIs` | src/route/next_hops.rs:151-155 | `buffer_len` of a next hop is the number of octets it emits |
| `RouteTree.DecodeSound` | src/route/attribute.rs:201-331 | A decoded tree fits its context at every depth, with no empty next-hop list |
| `RouteTree.DecodeHopsSound` | src/route/attribute.rs:307-326 | A decoded next-hop list is not empty and fits its context |
| `RouteTree.AttributeRoundTrip` | src/route/attribute.rs:124-331 | Through the attribute/next-hop recursion, a fitting tree comes back, up to TLVs |
| `RouteTree.HopsRoundTrip` | src/route/attribute.rs:307-326 | A non-empty list of next hops comes back from the multipath loop |
| `RouteTree.HopRoundTrip` | src/route/next_hops.rs:103-164 | Decoding an emitted next hop returns it and its length, whatever octets follow |
| `RouteTree.AttributesRoundTrip` | src/route/next_hops.rs:126-164 | A list of attributes inside a next hop or message comes back, up to TLVs |
| `RouteTree.NormalIsIdentity` | src/route/seg6.rs:129-149 | A tree loses nothing exactly when no header in it, at any depth, carries a TLV |
| `Route.MessageRoundTrip` | src/route/message.rs:21-89 | A size-bounded message comes back unchanged if and only if it agrees with its own header and first encap type at every depth, has no empty next-hop list, no hidden known code, no next-hop id and no TLVs |
| `Route.MessageNormalises` | src/route/message.rs:21-89 | A message that fits its own context comes back with only its TLVs missing |
| `Route.DecodeMessageSound` | src/route/message.rs:34-89 | On any octets, a message that decodes fits its own header and first encap type at every depth |
| `Route.TwoPassRefinesOnePass` | src/route/message.rs:57-89 | On success, the two passes computed what one pass computes under the first encap type of the decoded list |
| `Route.OnePassIsTwoPass` | src/route/message.rs:57-89 | A one-pass decoding under the right encap type is what the two passes return |
| `Route.FindReordered` | src/route/message.rs:63-80 | With at most one encap type among the attributes, the first pass finds the same one in any order |
| `Route.OrderIsPreserved` | src/route/message.rs:57-89 | With at most one encap type, permuting the attributes of a message permutes what it decodes to in the same way |
| `Route.FirstEncapTypeWins` | src/route/message.rs:63-80 | With two encap types the first one decides, so order does matter then |
| `Route.HopsTilePayload` | src/route/attribute.rs:307-326 | On success the length fields read are each at least 8, one per next hop, and sum to the payload length |
| `RouteCodec.ParseMultipath` | src/route/attribute.rs:307-326 | The loop over a shrinking buffer terminates and returns the recursive decoding, with the same failures |
| `RouteCodec.ParseNextHop` | src/route/next_hops.rs:103-149 | One next hop: checked length, panic below 8, attributes of exactly its own payload |
| `RouteCodec.ParseAttributes` | src/route/next_hops.rs:132-149 | The push loop over an iterator computes the element-wise decoding |
| `RouteCodec.SearchEncapType` | src/route/message.rs:61-81 | The first loop, with its `continue` and `break`, finds the first encap type that parses |
| `RouteCodec.ParseMessage` | src/route/message.rs:37-89 | Header and both loops together compute the decoding of the message |
| `RouteCodec.EmitHops` | src/route/attribute.rs:139-146 | The running offset of the multipath arm writes exactly the encoded next hops |
| `RouteCodec.EmitHop` | src/route/next_hops.rs:157-164 | Fixed part and attributes are written in place, and nothing else changes |
| `RouteCodec.EmitAttributes` | src/route/message.rs:26-31 | The slice emitter writes exactly the encoded attributes, recursively |
| `RouteCodec.EmitMessage` | src/route/message.rs:21-32 | Emitting into a buffer of `buffer_len` octets fills it with exactly the encoding |
| `RouteLayout.NodesAreStored` | src/route/next_hops.rs:151-164 | In an emitted tree every attribute and next hop, at any depth, starts on a 4-octet boundary and stores its own modelled size |
| `RouteLayout.RegionsTileBuffer` | src/route/attribute.rs:124-146 | The regions that emit writes, at all depths, tile the buffer without gap or overlap |
| `ExtMask.SumOfSplit` | src/link/ext_mask.rs:73-98 | Splitting a mask and summing the flags returns every 32-bit mask |
| `ExtMask.SplitCanonical` | src/link/ext_mask.rs:73-88 | The split lists distinct known flags in bit order and at most one final nonzero remainder disjoint from them |
| `ExtMask.SplitOfSum` | src/link/ext_mask.rs:73-98 | Summing a list and splitting it returns the list exactly when it has that canonical form |
| `ExtMask.SplitMask` | src/link/ext_mask.rs:62-88 | The loop with `got` never overflows, `d - got` never underflows, and the result is the split |
| `ExtMask.SumMask` | src/link/ext_mask.rs:90-98 | The loop returns the wrapping sum |
| `Mdb.DecodeConcat` | src/mdb/entry.rs:95-113 | For aligned, cleanly framed input, decoding a concatenation is concatenating the decodings |
| `Mdb.OtherBetweenEntries` | src/mdb/entry.rs:97-101 | An attribute of another kind between entries changes nothing |
| `Mdb.OtherBetweenInfos` | src/mdb/entry.rs:102-106 | An attribute of another kind between the infos of an entry changes nothing |
| `Mdb.OutputsAreLongInfos` | src/mdb/entry.rs:95-120 | The outputs correspond, in order, to exactly the entry-info values of at least 28 octets |
| `Mdb.InfoIsRead` | src/mdb/entry.rs:117-165 | The 28 fixed octets written field by field, with any attributes after them, decode to those fields and to what the attributes contribute, for IPv4, IPv6 and link-layer groups |
| `Mdb.GroupByProtocol` | src/mdb/entry.rs:125-134 | On any octets the group is IPv4 or IPv6 exactly when the protocol says so, and a link-layer one otherwise |
| `Mdb.EattrByType` | src/mdb/entry.rs:141-176 | One attribute of an entry, by its type number and length: what it overwrites, with what, and what it leaves |
| `Mdb.OneEntry` | src/mdb/entry.rs:95-113 | An info inside an entry inside a table, both of type 1, comes out as its decoding, or not at all when it is short |
| `Mdb.LastSource` | src/mdb/entry.rs:138-153 | The source is the decoding of the last source attribute, `None` if that one is ill-sized |
| `Mdb.KeepsSource` | src/mdb/entry.rs:138-153 | Without a source attribute the source stays as it was |
| `Mdb.LastDst` | src/mdb/entry.rs:138-153 | The destination is the decoding of the last destination attribute, `None` if that one is ill-sized |
| `Mdb.KeepsDst` | src/mdb/entry.rs:138-153 | Without a destination attribute the destination stays as it was |
| `Mdb.LastVni` | src/mdb/entry.rs:138-153 | The VNI is the last 4-octet value among both VNI attributes; ill-sized ones are ignored |
| `Mdb.KeepsVni` | src/mdb/entry.rs:138-153 | Without a 4-octet VNI attribute the VNI stays as it was |
| `Mdb.ParseEntryInfo` | src/mdb/entry.rs:117-165 | The loop that overwrites source, dst and vni computes the fold |
| `Mdb.ParseEntryPayload` | src/mdb/entry.rs:102-110 | The inner loop appends exactly the infos of one entry |
| `Mdb.ParseEntries` | src/mdb/entry.rs:95-113 | The nested loops compute the decoding of the whole attribute |
| `Mdb.MdbMessageRoundTrip` | src/mdb/message.rs:32-66 | A size-bounded message survives exactly when its family is canonical and no `Other` carries flag bits or a known type |
| `Mdb.EntriesOfTables` | src/mdb/message.rs:20-29 | The entries of a message are the decoding of its tables put end to end |
| `Mdb.EmitMdbMessage` | src/mdb/message.rs:56-65 | Fixed offsets and attribute writes fill the buffer with exactly the encoding |
| `Tunnel.EntryOctetsAreNested` | src/tunnel/message.rs:75-92 | The octets written by hand for one VNI are the generic nested encoding |
| `Tunnel.EmitTunnelMessage` | src/tunnel/message.rs:70-92 | The hand-offset emitter writes exactly the nested encoding of the list, in 8 + 12 n octets |
| `Tunnel.ParseTunnelMessage` | src/tunnel/message.rs:43-67 | The nested parse loops collect the VNIs of the decoding |
| `Tunnel.TunnelRoundTrip` | src/tunnel/message.rs:40-92 | Every list of VNIs comes back; the header does exactly when its family is canonical |
| `Tunnel.InnerAdds` | src/tunnel/message.rs:55-64 | Inside an entry, an attribute of type 1 with four octets adds its VNI at its place and any other adds nothing |
| `Tunnel.OuterAdds` | src/tunnel/message.rs:50-65 | In a message, an attribute of type 1 adds the VNIs inside it at its place and any other adds nothing |
| `Tunnel.EntryHeaders` | src/tunnel/message.rs:78-89 | The octets around an emitted VNI: lengths 12 and 8, type 1 with the nested flag, type 1 |
| `Nexthop.GroupsRoundTrip` | src/nexthop/group.rs:20-46 | Every group list comes back from its 8-octet records |
| `Nexthop.GroupsPrefix` | src/nexthop/attribute.rs:118-126 | A group payload keeps exactly its whole 8-octet records |
| `Nexthop.ParseGroups` | src/nexthop/attribute.rs:118-126 | The chunk loop returns the records in order |
| `Nexthop.EmitGroups` | src/nexthop/attribute.rs:69-76 | The running offset writes exactly the encoded groups |
| `Nexthop.ByteStable` | src/nexthop/attribute.rs:49-153 | Emit, parse, emit gives the same octets, although encapsulations come back as `Other` |
| `Nexthop.NexthopRoundTrip` | src/nexthop/message.rs:20-75 | A size-bounded message survives exactly when it fits its family and holds no encapsulation |
| `Nexthop.EncapsAreReadable` | src/nexthop/attribute.rs:81-96 | An emitted encapsulation has the nested type 8, and its value is what the encapsulation codec reads back under the encap type of its variants |
| `LinkAttributes.LinkLeafRoundTrip` | src/link/attribute.rs:233-629 | Every non-recursive link attribute that fits the family comes back and is never taken for link info |
| `LinkAttributes.LinkLeafSound` | src/link/attribute.rs:370-629 | Whatever decodes fits the family it was decoded under |
| `LinkAttributes.ElementsRoundTrip` | src/link/prop_list.rs:20-65 | Properties, down reasons, bridge specs and vrf data each survive exactly when no `Other` hides a known type |
| `LinkAttributes.PortDataRoundTrip` | src/link/link_info/info_port.rs:104-153 | Port data of the form its port kind selects comes back |
| `LinkAttributes.PortDataSound` | src/link/link_info/info_port.rs:128-153 | Decoded port data has the form its port kind selects |
| `Link.LinkRoundTrip` | src/link/message.rs:19-60 | A size-bounded link message, with veth peers nested to any depth, comes back if and only if it obeys the kind/data and port-kind/port-data discipline at every level |
| `Link.FittingRoundTrip` | src/link/link_info/veth.rs:50-66 | A message that obeys the discipline comes back through every level of peers |
| `Link.LinkSound` | src/link/message.rs:35-44 | On any octets, a message that decodes obeys the discipline at every level |
| `Link.InfosRoundTrip` | src/link/link_info/infos.rs:105-171 | From any state of the machine, infos that fit that state come back |
| `Link.DataRoundTrip` | src/link/link_info/info_data.rs:47-356 | Data of the variant its kind selects comes back |
| `Link.DataSound` | src/link/link_info/info_data.rs:109-356 | Decoded data is of the variant its kind selects |
| `LinkKinds.ListNames` | src/link/link_info/info_data.rs:109-352 | Under each of the twenty names, written out, a cleanly framed payload decodes to its attributes and any other to an error |
| `LinkKinds.VrfName` | src/link/link_info/info_data.rs:287-297 | Under "vrf" the payload is a list of vrf attributes |
| `LinkKinds.VethName` | src/link/link_info/info_data.rs:148-154 | Under "veth" the payload is one attribute: type 1 is a whole link message, any other is kept |
| `LinkKinds.OtherNames` | src/link/link_info/info_data.rs:353-353 | Under any other name the payload is kept as octets |
| `LinkKinds.PortNames` | src/link/link_info/info_port.rs:128-153 | Port data: lists under "bond" and "bridge", vrf attributes under "vrf", octets under any other name |
| `LinkKinds.DataAfterKind` | src/link/link_info/infos.rs:105-171 | A kind attribute with a name, then a data attribute, decodes to that kind and the data that name selects |
| `LinkDiscipline.FitIsDiscipline` | src/link/link_info/infos.rs:105-171 | What the two-variable state machine accepts is exactly: every data or xstats has a latest kind before it that selects its variant, and every port data a latest port kind that no port data has used |
| `LinkDiscipline.DecodedIsDisciplined` | src/link/link_info/infos.rs:105-171 | Whenever the infos decode, they are placed in that way |
| `LinkDiscipline.PortKindServesOnce` | src/link/link_info/infos.rs:127-142 | Two port data are always served by two different port kinds, one between them |
| `LinkDiscipline.KindMeaning` | src/link/link_info/infos.rs:108-150 | The remembered kind is the name of the latest kind, and none exactly when there was none |
| `LinkDiscipline.PortKindMeaning` | src/link/link_info/infos.rs:109-142 | The remembered port kind is the latest one not followed by port data |
| `LinkDiscipline.DepthBound` | src/link/link_info/veth.rs:50-66 | On any input, peers nest at most (length - 16) / 36 deep |
| `LinkDiscipline.DepthBoundIsReached` | src/link/link_info/veth.rs:50-66 | The bound is exact: for every depth that fits a length field there are octets that reach it |
| `LinkCodec.ParseLink` | src/link/message.rs:35-44 | The recursive procedure terminates on every input and returns the decoding |
| `LinkCodec.ParseAttributes` | src/link/message.rs:50-59 | The attribute loop computes the element-wise decoding under the header family |
| `LinkCodec.ParseInfos` | src/link/link_info/infos.rs:105-171 | The loop with its two remembered kinds computes the decoding |
| `LinkCodec.ParseInfo` | src/link/link_info/infos.rs:112-168 | Each arm of the loop returns the decoded info and updates the two remembered kinds as the machine does |
| `LinkCodec.ParseData` | src/link/link_info/info_data.rs:109-356 | The arm that the kind selects is the one that runs |
| `LinkEmit.LinkLenIs` | src/link/message.rs:20-22 | At every level of peers, `buffer_len` is the number of octets that are emitted |
| `LinkEmit.LeafLenIs` | src/link/attribute.rs:170-231 | The announced length of a non-recursive attribute is the emitted length |
| `LinkEmit.InfosLenIs` | src/link/link_info/infos.rs:57-67 | The announced length of a list of infos, peers included, is the emitted length |
| `LinkEmit.EmitLink` | src/link/message.rs:24-29 | Header and attributes are written in place, through every level of peers, and nothing outside changes |
| `LinkEmit.EmitAttributes` | src/link/message.rs:24-29 | The running offsets write exactly the encoded attributes |
| `LinkEmit.EmitInfos` | src/link/link_info/infos.rs:69-78 | The running offsets write exactly the encoded infos |
| `LinkEmit.EmitVeth` | src/link/link_info/veth.rs:33-39 | The peer is written in place inside its attribute, with its length field and padding |
| `LinkEmit.EmitMessage` | src/link/message.rs:19-30 | Emitting into a buffer of `buffer_len` octets fills it with exactly the encoding |
| `TcSelector.SelectorRoundTrip` | src/tc/filters/cls_u32.rs:193-250 | A selector comes back exactly when its count is the number of its keys; a larger count comes back padded with zero keys |
| `TcSelector.SelectorOctets` | src/tc/filters/cls_u32.rs:193-250 | On any octets: fewer than 16 are an error, fewer than the count announces panic, otherwise the selector is written back as the octets it was read from with the padding octet cleared |
| `TcSelector.ParseSelector` | src/tc/filters/cls_u32.rs:219-250 | The key loop returns the decoding; a payload shorter than the count announces panics |
| `TcSelector.EmitKeys` | src/tc/filters/cls_u32.rs:209-216 | The key loop writes one slot per key and fails at the first key without a slot |
| `TcSelector.EmitSelector` | src/tc/filters/cls_u32.rs:193-217 | In a zeroed buffer exactly the encoding is written when the keys fit the count; otherwise emit panics |
| `TcActions.XstatsRoundTrip` | src/tc/qdiscs/fq_codel.rs:34-91 | Statistics survive exactly when the kind selects their form and no `Other` starts with a known tag |
| `TcKinds.XstatsByName` | src/tc/stats/xstats.rs:34-49 | Statistics under "fq_codel", by their first four octets and length, and under any other name |
| `TcActions.Stats2RoundTrip` | src/tc/stats/stats2.rs:32-87 | A statistic survives exactly when it fits the kind and no `Other` hides a known type |
| `TcActions.ActionOptionRoundTrip` | src/tc/actions/action.rs:294-344 | An option of an action survives exactly when it is of the variant the kind selects |
| `TcKinds.ActionOptionsByName` | src/tc/actions/action.rs:320-344 | The options of an action under "mirred", under "nat" and under any other name, by type and length |
| `TcActions.ActionAttributeRoundTrip` | src/tc/actions/action.rs:179-268 | An attribute of an action survives exactly when it fits the kind of the action |
| `TcActions.ActionDecodes` | src/tc/actions/action.rs:61-113 | An action decodes to a given result exactly when the framing is clean, exactly one kind is present, wherever it sits, and every attribute decodes under that kind |
| `TcActions.OneKind` | src/tc/actions/action.rs:71-104 | The first pass collects one kind exactly when one attribute has the kind type, and then it is that one |
| `TcActions.ActionOrderIsPreserved` | src/tc/actions/action.rs:61-113 | Permuting the attributes of an action permutes what it decodes to in the same way |
| `TcActions.ActionOrderKeepsSuccess` | src/tc/actions/action.rs:61-113 | An action decodes exactly when every permutation of it does |
| `TcActions.ActionRoundTrip` | src/tc/actions/action.rs:46-114 | An action survives exactly when its table number has no flag bits and it has one kind that all its attributes fit |
| `Tc.BodyRoundTrip` | src/tc/filters/cls_u32.rs:62-164 | An option survives exactly when its form is the one its owner reads under its type, selectors count their keys and actions fit |
| `Tc.OptionsRoundTrip` | src/tc/options.rs:61-131 | Options survive exactly when the kind is one of the four known ones and every option is of that kind |
| `TcKinds.OptionsByName` | src/tc/options.rs:61-131 | Under "u32", "matchall", "fq_codel" and "ingress" options are read by four readers written out type by type; under any other name the whole attribute is the one option |
| `TcKinds.OptionsAfterKind` | src/tc/message.rs:53-67 | In a message the name is the one in the kind attribute before the options |
| `Tc.UnknownOptionsGrow` | src/tc/options.rs:124-128 | Under an unknown kind the parsed options re-emit as the whole old attribute: each cycle adds a header |
| `Tc.AttributeRoundTrip` | src/tc/attribute.rs:52-162 | An attribute survives under a kind exactly when it fits it; `DumpInvisible(false)` never does |
| `Tc.DecodeMeans` | src/tc/message.rs:53-67 | The loop with its running kind decodes every attribute under the latest kind before it |
| `Tc.PrefixDecodes` | src/tc/message.rs:53-67 | A prefix of the attributes decodes to the prefix of the result |
| `Tc.TcRoundTrip` | src/tc/message.rs:39-80 | A size-bounded message comes back unchanged if and only if every attribute fits the latest kind before it |
| `Tc.HandleRoundTrip` | src/tc/header.rs:99-120 | Handles and words convert back and forth without loss |
| `Tc.ParseAttributes` | src/tc/message.rs:53-67 | The loop computes the decoding, with the same failures |
| `Tc.ParseTc` | src/tc/message.rs:39-48 | Header and loop together compute the decoding of the message |
| `Tc.ParseOptions` | src/tc/options.rs:100-130 | The loop, or the single stored attribute, is the decoding of the options |
| `Tc.EmitTc` | src/tc/message.rs:69-80 | Header and attributes are written at their offsets, and nothing else changes |
| `Envelope.TypeIsKept` | src/message.rs:97-389 | A message that decodes has the type it was asked for and is never a link property |
| `Envelope.ShortForms` | src/message.rs:104-218 | The only buffers shorter than their header that are accepted are 4 octets for GETLINK and GETADDR, and 1 or 4 for GETROUTE |
| `Envelope.ShortFormsAreFixedPoints` | src/message.rs:104-218 | A short form decodes to the family in its first octet and nothing else: emitted, it is that octet and zeros, without attributes, and parses back to itself |
| `Envelope.LinkPropsAreEmitOnly` | src/message.rs:619-627 | Link properties emit like links, and nothing parses under their types |
| `Envelope.Dispatch` | src/message.rs:97-389 | Asked for the type of a message, the dispatch runs the codec of that message |
| `Envelope.EnvelopeRoundTrip` | src/message.rs:97-389 | Across all families, a size-bounded message comes back under its own type exactly when it is coherent and not a link property |
| `Envelope.AddressMessageRoundTrip` | src/address/message.rs:50-113 | An address message, with attributes as framed, comes back exactly when its family is canonical |
| `Codes.ByteOrder` | src/mdb/entry.rs:121-125 | Native integers are read little-endian and network integers big-endian |
| `Codes.ExactWidth` | src/link/attribute.rs:490-560 | Scalars are read from values of exactly their width; any other length is an error |
| `Codes.TypeBits` | src/tunnel/message.rs:52-54 | The type of an attribute is its kind without the two flag bits |
| `Codes.BadHead` | src/route/message.rs:66-70 | Octets that are not a whole attribute end the iteration in an error |
| `Codes.FamilyCodes` | src/address_family_linux.rs:64-118 | Which code is which address family |
| `Codes.RouteTypeCodes` | src/route/header.rs:376-394 | Which code is which route type |
| `Codes.EncapTypeCodes` | src/route/lwtunnel.rs:42-59 | Which code is which encap type |
| `Codes.PreferenceCodes` | src/route/preference.rs:30-40 | Which code is which preference, and which propagation mode |
| `Codes.AddressForms` | src/route/address.rs:34-48 | Which form and length an address has under each family |
| `Codes.ViaForms` | src/route/via.rs:36-51 | A tagged gateway is read by the family in its first octet; the second is ignored |
| `Codes.RouteAddressTypes` | src/route/attribute.rs:201-235 | Route attributes with addresses, by type number |
| `Codes.RouteWordTypes` | src/route/attribute.rs:201-331 | Route attributes with one word, by type number |
| `Codes.RouteCodeTypes` | src/route/attribute.rs:201-331 | Route attributes with a code or a list, by type number; the expiry by route type |
| `Codes.RouteRecordTypes` | src/route/attribute.rs:201-331 | Realm, cache info and multicast statistics, by type number and length, with the panic of a short realm |
| `Codes.RouteOtherTypes` | src/route/attribute.rs:307-331 | Type 9 holds next hops, and every other type is kept |
| `Codes.NextHopLengths` | src/route/next_hops.rs:54-82 | Which lengths make a next hop an error and which make it panic, and where its fields are |
| `Codes.MetricTypes` | src/route/metrics.rs:129-190 | Metrics are types 1 to 17 with one word; others are kept |
| `Codes.EncapArms` | src/route/lwtunnel.rs:147-172 | The encap type selects the codec, and attribute types its arms |
| `Codes.LocalTypes` | src/route/seg6local.rs:107-175 | Local segment-routing attributes, by type number and length |
| `Codes.CounterAndFlavorTypes` | src/route/seg6local.rs:278-380 | Counters and flavors, by type number |
| `Codes.NexthopTypes` | src/nexthop/attribute.rs:109-153 | Nexthop attributes, by type number; type 8 has no arm |
| `Codes.MdbTypes` | src/mdb/attribute.rs:53-68 | Multicast-database attributes, by type number; unknown ones lose their flag bits |
| `Codes.LinkScalarTypes` | src/link/attribute.rs:370-629 | Link attributes with octets, text, one octet or one word, by type number |
| `Codes.LinkListTypes` | src/link/attribute.rs:370-629 | Link attributes with lists and the extension mask, by type number and family |
| `Codes.LinkInfoTypes` | src/link/link_info/infos.rs:105-171 | Infos, by type number and state; type 18 holds them |
| `Codes.LinkElementTypes` | src/link/af_spec/bridge.rs:54-78 | Properties, down reasons, bridge specs and vrf attributes, by type number |
| `Codes.StatsTypes` | src/tc/stats/stats2.rs:64-87 | Statistics, by type number and length: a short record panics, a long one is cut |
| `Codes.ActionTypes` | src/tc/actions/action.rs:219-268 | Action attributes, by type number |
| `Codes.TcTypes` | src/tc/attribute.rs:109-162 | Traffic-control attributes, by type number |
| `Codes.NestedKinds` | src/link/attribute.rs:307-366 | Which attributes are emitted with the nested flag |
| `Codes.PlainKinds` | src/route/attribute.rs:164-192 | No other attribute is emitted with a flag in its kind |
| `Codes.ReservedOctets` | src/tc/header.rs:48-61 | Padding and reserved octets are emitted as zero |
| `Codes.RecordTails` | src/tc/stats/basic.rs:32-43 | Records that leave octets unwritten leave them zero |

## Left out

- The attribute iterator and the scalar parsers belong to a library that is not part of this model; their behaviour is taken from how the crate and its tests use them: `kind()` drops the two flag bits, `DefaultNla` keeps them, an iterator yields at most one error and then ends, `parse_u8` to `parse_u64` want the exact length, `parse_string` drops one trailing NUL.
- Native byte order is little-endian; `u8` and `u16` arithmetic wraps, as in a build without overflow checks.
- Strings are octets: UTF-8 validation and its errors are not modelled.
- Buffers to emit into are zeroed first; in particular the padding counter of seg6local, which writes nothing, is modelled as writing zeros.
- Error messages, their context strings, logging and `Display` are not modelled; all decode errors are one `Err`.
- Number tables (protocols, scopes, flags, link layer types, seg6 actions and modes, action types) are kept as numbers; address families beyond the ones the codecs branch on are `OtherFamily` with their code; the FreeBSD and fallback families are not modelled.
- Fixed-layout records (cache info, traffic-control statistics, mirror and nat parameters) are sequences of words; signed fields are kept as their bit patterns.
- Route metrics and the scalar link attributes are one constructor per wire form with their code, since they differ in nothing else.
- Link statistics, maps, virtual functions, physical ids, wireless events, protocol info, XDP, and the elements of the unspecified-family AF_SPEC are kept as framed attributes.
- The data of twenty link kinds is a list of framed attributes; only vrf and veth data are decoded further, and bond and bridge port data likewise.
- Neighbours, neighbour tables, rules, prefixes, namespaces and action messages share one constructor of the envelope with an arbitrary decoder; address attributes are kept as framed.
- The outer netlink header, sockets and the examples are not modelled.
- Tc.EmitTc: nested values are formed as octets before they are written; the selector and its keys are also written in place, by TcSelector.EmitSelector.
- Tc.TcRoundTrip: a selector with more keys than it counts, on which emit panics, is encoded without the surplus keys.
- RouteAttributes.LeafRoundTrip: excludes next-hop ids, which RouteAttributes.NhidIsLost shows never come back.
- LinkDiscipline.DepthBound: counts nested peers, so attributes that do not nest cost nothing in the bound.
