# CamelMailer: a verified model of its core logic

This project models the parts of CamelMailer whose correctness is not visible
from one function: exclusive XML canonicalization and the enveloped signature
check of its SAML service provider, the idempotent send pipeline with its quota
gate, the campaign lifecycle, the login lockout, base32 and TOTP, the bounce
token header, organization ownership, the memoizing SPF resolver, the traffic
rollup and the slug normal form. `dafny verify dfyconfig.toml` checks all of it.

Code that computes values is modelled by functions. Code that updates variables
or stored state is modelled by methods and classes, each proved equal to a
function, about which the theorems are stated.

| modules | what they hold |
|---|---|
| `XmlTree`, `ExcC14n`, `ExcC14nWriter` | the document, the canonical form, the recursive writer |
| `ExcC14nParser`, `ExcC14nSorting`, `ExcC14nNamespaces`, `ExcC14nOrder`, `ExcC14nFidelity`, `ExcC14nLaws`, `ExcC14nContext` | unique decodability, what is declared and in which order, namespace fidelity and minimality, exclusion, context independence |
| `XmlSignature`, `XmlAcceptance`, `XmlSignatureLaws`, `XmlSigning`, `XmlTrust` | verification of enveloped signatures, exactly what is accepted, what acceptance means, signing then verifying, what is accepted is what was signed |
| `SendStore`, `Idempotency`, `BatchQuota` | the atomic commit, all interleavings of concurrent sends, the quota gate of a batch |
| `CampaignStore`, `CampaignLifecycle`, `CampaignRaces` | campaign storage operations, the lifecycle over every run, what interleaved handlers do to it |
| `LoginLockout`, `Base32`, `Base32Blocks`, `Totp`, `FoldedHeaders`, `BounceToken`, `BounceTokenLoops`, `BounceExact` | authentication and bounce correlation |
| `Membership`, `SpfMemo`, `Rollup`, `Slug` | ownership, memoization, rollup, slugs |
| `Options`, `Sequences`, `Splitting`, `Numerals`, `StringOrder`, `StableSort`, `Ascii` | shared vocabulary |

## Findings

Seven plausible laws turned out to be false of the code as written. Each has a
counterexample for a whole family of inputs and an exact condition.

- Namespace fidelity. When the namespace of an attribute is found first as the
  default namespace, `lookup_prefix` yields no prefix and the attribute is
  printed without its namespace. The canonical string means what the source
  means if and only if every namespaced attribute finds a prefix
  (`ExcC14nFidelity.CanonicalMeaning`, `ExcC14nContext.UnprefixedAttributeIsLost`).
- Context independence. Agreement of two contexts on the prefixes a subtree uses
  is not enough, because the prefix printed for an attribute depends on the order
  in which its URI was declared. The exact condition compares the answers of the
  lookups the writer makes (`ExcC14nContext.ContextIndependence`,
  `ExcC14nContext.PrefixAgreementIsNotEnough`).
- Token replacement. Inserting token b after token a equals inserting b alone if
  and only if the message does not start with a space or tab
  (`BounceToken.Replacement`).
- The last owner. `members_create` ignores an error of its membership lookup and
  goes on to overwrite the role, so anyone who may add members can demote the sole
  owner while that lookup fails. A step takes the last owner away if and only if it
  is such a create naming the sole owner (`Membership.LastOwnerLost`,
  `Membership.CreateCanDemoteTheSoleOwner`), and a run keeps an owner throughout if
  and only if no step of it is (`Membership.OwnerSurvives`).
- Ownership without owners acting. Such a run can change the owners in two ways: an
  SSO login through a connection whose default role is owner adds one, and a create
  behind a failed lookup demotes one. The owners stay the same throughout if and
  only if neither happens (`Membership.OwnersUnchanged`,
  `Membership.SsoLoginCanAddAnOwner`).

- Retention. The lifetime of an idempotency record counts from the arrival of its
  request, not from the commit, so a request that takes `delay` seconds to commit
  protects its key for `RETENTION - delay` seconds only. Two stores under one key
  are never closer than that (`Idempotency.OncePerWindow`) and can be exactly that
  close; with a delay of a whole window they happen at the same instant
  (`Idempotency.SlowRequest`).
- One expansion per campaign. Handlers check that a campaign is planned and write
  later without checking again. As long as every write finds its campaign still
  planned, none is expanded twice (`CampaignRaces.FreshWritesExpandOnce`). The first
  overtaken write of a run makes a second expansion if and only if it is a send-now
  of a campaign expanded since its check (`CampaignRaces.FirstOvertakenWrite`,
  `CampaignRaces.ScheduledSendRace`), and a send-now overtaken by a cancel sends the
  canceled campaign (`CampaignRaces.CanceledCampaignIsSent`).

A limit of zero login attempts behaves exactly as a limit of one
(`LoginLockout.ZeroLimitIsOne`).

## Model

| member | source | states |
|---|---|---|
| `XmlTree.LookupPrefixSound` | crates/camelmailer-api/src/xmldsig.rs:294-296 | a prefix found for a namespace URI is bound to that URI in the same scope |
| `XmlTree.LookupUriFirst` | crates/camelmailer-api/src/xmldsig.rs:264-267 | a prefix is looked up in the first namespace of the scope that has it |
| `XmlTree.LookupPrefixFirst` | crates/camelmailer-api/src/xmldsig.rs:294-296 | a URI is looked up in the first namespace that has it, which may be the default one |
| `XmlTree.InScopeOrder` | crates/camelmailer-api/src/xmldsig.rs:264-296 | an element's scope is its own declarations in order, then those of its ancestors it does not override, in order |
| `ExcC14nWriter.WriteText` | crates/camelmailer-api/src/xmldsig.rs:363-373 | the escaping loop appends the escaped text |
| `ExcC14nWriter.WriteAttributeValue` | crates/camelmailer-api/src/xmldsig.rs:375-387 | the escaping loop appends the escaped attribute value |
| `ExcC14nWriter.RenderDeclarations` | crates/camelmailer-api/src/xmldsig.rs:257-301 | the three passes of `consider` leave the scope and declarations of one pass over all considered prefixes |
| `ExcC14nWriter.WriteNode` | crates/camelmailer-api/src/xmldsig.rs:222-349 | the recursive writer appends exactly the serialization of the node's canonical form, nothing for an excluded node or a comment |
| `ExcC14nWriter.Canonicalize` | crates/camelmailer-api/src/xmldsig.rs:214-218 | the output is the serialization of the canonical form that all theorems below are about |
| `StableSort.SortOrders` | crates/camelmailer-api/src/admin_overview.rs:200-206 | under a total order the sorted list is ordered and holds every element as often as before |
| `ExcC14nSorting.SortOrders` | crates/camelmailer-api/src/xmldsig.rs:302-333 | sorting declarations or attributes orders them and keeps every line |
| `ExcC14nSorting.SortForgetsOrder` | crates/camelmailer-api/src/xmldsig.rs:333-333 | distinctly keyed lines sort to the same sequence whatever order they came in |
| `StringOrder.FirstDifference` | crates/camelmailer-api/src/xmldsig.rs:302-333 | one string comes before another exactly when it is a prefix of it or smaller at the first character in which they differ |
| `ExcC14nOrder.EscapedExactly` | crates/camelmailer-api/src/xmldsig.rs:363-387 | exactly the characters that Canonical XML lists are replaced, in text and in attribute values, by the references it lists |
| `ExcC14nOrder.NoRawText` | crates/camelmailer-api/src/xmldsig.rs:363-373 | no escaped text holds `<`, `>` or a carriage return |
| `ExcC14nOrder.NoRawAttribute` | crates/camelmailer-api/src/xmldsig.rs:375-387 | no escaped attribute value holds `<`, a quote, a tab or a line break |
| `ExcC14nOrder.ConsideredUsed` | crates/camelmailer-api/src/xmldsig.rs:291-301 | the prefixes considered are the element's own, those found for its namespaced attributes, and those of the PrefixList |
| `ExcC14nOrder.DeclaredExactly` | crates/camelmailer-api/src/xmldsig.rs:256-301 | a prefix is declared if and only if it is used, is neither `xml` nor `xmlns`, and is bound in the source otherwise than in the output so far |
| `ExcC14nOrder.SortedKeys` | crates/camelmailer-api/src/xmldsig.rs:302-333 | the sorts order their lines by two strings, stated on the strings themselves |
| `ExcC14nOrder.TagInOrder` | crates/camelmailer-api/src/xmldsig.rs:251-340 | a start tag has its name, then declarations by prefix, then exactly the attributes of the source by namespace URI and local name |
| `ExcC14nOrder.CanonicalInOrder` | crates/camelmailer-api/src/xmldsig.rs:222-349 | so does every start tag of a canonical form, which keeps every text, instruction and element in place except comments and the excluded node |
| `ExcC14nParser.RoundTrip` | crates/camelmailer-api/src/xmldsig.rs:214-387 | parsing a serialized content gives the content back with adjacent text merged |
| `ExcC14nParser.SerializeInjective` | crates/camelmailer-api/src/xmldsig.rs:214-387 | two contents have the same string if and only if they are equal up to merging adjacent text |
| `ExcC14nNamespaces.ConsiderAllEffect` | crates/camelmailer-api/src/xmldsig.rs:259-301 | bindings after `consider` over a list, and exactly which declarations it called for |
| `ExcC14nNamespaces.DeclaredOnce` | crates/camelmailer-api/src/xmldsig.rs:259-301 | no prefix is declared twice on one element |
| `ExcC14nNamespaces.RenderedRead` | crates/camelmailer-api/src/xmldsig.rs:256-313 | a reader of the printed declarations recovers exactly the bindings the writer passes to the children |
| `ExcC14nFidelity.HeadReadBack` | crates/camelmailer-api/src/xmldsig.rs:251-340 | the start tag, read in the output's own scope, names the element and its attributes as the source does, if and only if every attribute finds a prefix |
| `ExcC14nFidelity.ResolveCanonical` | crates/camelmailer-api/src/xmldsig.rs:222-349 | along every output path prefixes resolve to their source URIs, undeclared defaults included, if and only if every namespaced attribute finds a prefix |
| `ExcC14nFidelity.CanonicalPrintable` | crates/camelmailer-api/src/xmldsig.rs:222-349 | what the writer prints for parsed XML is always readable by the parser of the canonical form |
| `ExcC14nFidelity.CanonicalMeaning` | crates/camelmailer-api/src/xmldsig.rs:214-387 | the canonical string, parsed and namespace-resolved, is the source subtree without comments and the excluded node, text merged, if and only if every namespaced attribute finds a prefix |
| `ExcC14nFidelity.EqualStringsEqualMeaning` | crates/camelmailer-api/src/xmldsig.rs:214-387 | equal canonical strings mean equal expanded names, attributes, text and child order, across documents, contexts, exclusions and PrefixLists |
| `ExcC14nLaws.CanonicalMinimal` | crates/camelmailer-api/src/xmldsig.rs:256-313 | every rendered declaration changes the binding inherited in the output and no prefix occurs twice on an element |
| `ExcC14nLaws.ExclusionPrunes` | crates/camelmailer-api/src/xmldsig.rs:222-231 | canonicalizing with a node excluded is canonicalizing the tree with it removed, at any depth |
| `ExcC14nLaws.AttributeOrderIrrelevant` | crates/camelmailer-api/src/xmldsig.rs:292-340 | listing attributes in another order anywhere in the tree gives the same canonical form |
| `ExcC14nContext.ContextIndependence` | crates/camelmailer-api/src/xmldsig.rs:214-313 | two contexts give a subtree the same canonical string if and only if they answer alike every lookup the writer makes in it |
| `ExcC14nContext.AgreementSuffices` | crates/camelmailer-api/src/xmldsig.rs:214-313 | agreement on the used prefixes, the PrefixList and the declarations of the attributes' URIs is enough, whatever else the contexts declare |
| `ExcC14nContext.PrefixAgreementIsNotEnough` | crates/camelmailer-api/src/xmldsig.rs:292-298 | two contexts that bind every prefix alike but declare one URI in another order give different strings |
| `ExcC14nContext.UnprefixedAttributeIsLost` | crates/camelmailer-api/src/xmldsig.rs:320-328 | an attribute whose namespace is found first as the default one is printed like an attribute in no namespace |
| `XmlSignature.ScanTransforms` | crates/camelmailer-api/src/xmldsig.rs:156-168 | the transform loop accepts only the two known algorithms and collects their PrefixLists in order |
| `XmlAcceptance.TransformsExactly` | crates/camelmailer-api/src/xmldsig.rs:156-168 | transforms are accepted if and only if each is one of the two known, and their PrefixLists are collected in order |
| `XmlAcceptance.ListedPrefix` | crates/camelmailer-api/src/xmldsig.rs:86-94 | a prefix is inclusive if and only if it is a word of the PrefixList of an InclusiveNamespaces child |
| `XmlAcceptance.PrefixListWords` | crates/camelmailer-api/src/xmldsig.rs:86-94 | the words of a PrefixList are all its maximal stretches without white space, from left to right |
| `XmlAcceptance.DsElementsAll` | crates/camelmailer-api/src/xmldsig.rs:75-84 | a search for signature elements of a name finds all such siblings and no others, in order |
| `XmlAcceptance.CompactExactly` | crates/camelmailer-api/src/xmldsig.rs:34-39 | base64 is read without white space and otherwise unchanged |
| `XmlAcceptance.UnsignedRefused` | crates/camelmailer-api/src/xmldsig.rs:66-73 | an element is refused as unsigned if and only if it has no direct Signature child in the signature namespace |
| `XmlAcceptance.SignedInfoExactly` | crates/camelmailer-api/src/xmldsig.rs:112-184 | a SignedInfo is read if and only if it has the accepted algorithms and transforms and one reference to the element's unique ID; and what is then read |
| `XmlAcceptance.LastChecks` | crates/camelmailer-api/src/xmldsig.rs:186-206 | a read signature is accepted if and only if the digest matches and a well-formed signature value verifies over the canonical SignedInfo; and when each of the two mismatches is answered |
| `XmlAcceptance.AcceptedExactly` | crates/camelmailer-api/src/xmldsig.rs:102-206 | an element is accepted if and only if its signature is valid: algorithms, transforms, one reference by a unique ID, digest, and a signature of the key over the canonical SignedInfo |
| `XmlAcceptance.AcceptedIsSigned` | crates/camelmailer-api/src/xmldsig.rs:195-206 | whatever is accepted carries a well-formed signature value that the key verifies over the signed bytes |
| `XmlSignatureLaws.FirstDsSurvives` | crates/camelmailer-api/src/xmldsig.rs:75-84 | `ds_child` can be answered from what canonicalization preserves |
| `XmlSignatureLaws.TextIsPrefix` | crates/camelmailer-api/src/xmldsig.rs:180-184 | `text()` sees a prefix of the signed text, never anything else |
| `XmlSignatureLaws.SameDigestValue` | crates/camelmailer-api/src/xmldsig.rs:34-39 | two readings of the same signed DigestValue that decode to 32 bytes agree, comments notwithstanding |
| `XmlSignatureLaws.AcceptedDigest` | crates/camelmailer-api/src/xmldsig.rs:107-189 | an accepted element's signature is its direct child, its SignedInfo has exactly one Reference, whose URI is the element's ID, which occurs once in the document, and the stored digest is that of the canonical content |
| `XmlSignatureLaws.SameBytesSameMeaning` | crates/camelmailer-api/src/xmldsig.rs:102-206 | two accepted elements whose signatures cover the same bytes have the same meaning outside the signature, or their digested strings collide |
| `XmlSignatureLaws.ReferenceIsUnambiguous` | crates/camelmailer-api/src/xmldsig.rs:143-154 | no other node of the document carries the ID an accepted signature refers to |
| `XmlSigning.InsertedIsExcluded` | crates/camelmailer-api/src/xmldsig.rs:186-186 | the digested string with the signature inserted is the canonical string without it |
| `XmlSigning.SignThenVerify` | crates/camelmailer-api/src/xmldsig.rs:102-206 | an element signed as an identity provider does is accepted if and only if the reference is its own ID and that ID occurs once |
| `XmlTrust.SoundInfo` | crates/camelmailer-api/src/xmldsig.rs:474-489 | the SignedInfo a signer builds is well-formed XML whose attributes can all be named |
| `XmlTrust.AcceptedIsWhatWasSigned` | crates/camelmailer-api/src/xmldsig.rs:102-206 | an element accepted under bytes that the signer signed for another element means what that element means, outside the signature, or their digested strings collide |
| `Base32.Base32Encode` | crates/camelmailer-core/src/auth.rs:64-81 | with a 64-bit accumulator that drops high bits, the output is the five-bit digits of the data, zero-padded |
| `Base32.Base32Decode` | crates/camelmailer-core/src/auth.rs:84-103 | with the same accumulator, the result is the bytes of the digits, or none at a foreign character |
| `Base32.DecodeDigits` | crates/camelmailer-core/src/auth.rs:64-103 | decoding inverts encoding at every phase of the two loops |
| `Base32.RoundTrip` | crates/camelmailer-core/src/auth.rs:64-103 | any string that is the encoding of d up to letter case, `=` and spaces decodes to d, for d of any length |
| `Base32.EncodedIsNormalized` | crates/camelmailer-core/src/auth.rs:64-81 | the encoding itself is such a string |
| `Base32.DecodeFails` | crates/camelmailer-core/src/auth.rs:84-103 | decoding fails if and only if some character is neither ignored nor in the alphabet after upper-casing |
| `Base32Blocks.EncodedBlockwise` | crates/camelmailer-core/src/auth.rs:64-81 | blocks of five bytes are encoded on their own |
| `Base32Blocks.WholeBlock` | crates/camelmailer-core/src/auth.rs:64-81 | five bytes become eight digits that spell the same number |
| `Base32Blocks.ShortBlocks` | crates/camelmailer-core/src/auth.rs:64-81 | a last block of one to four bytes becomes two, four, five or seven digits that spell its number with zero bits behind it |
| `Base32Blocks.EncodingLetters` | crates/camelmailer-core/src/auth.rs:61-81 | digits are written in the alphabet of RFC 4648, section 6 |
| `Base32Blocks.DecodedBlockwise` | crates/camelmailer-core/src/auth.rs:84-103 | blocks of eight digits are decoded on their own |
| `Base32Blocks.BlockDecodes` | crates/camelmailer-core/src/auth.rs:84-103 | up to eight digits become the bytes of the number they spell, and bits that fill no byte are dropped |
| `Base32Blocks.AcceptedCharacters` | crates/camelmailer-core/src/auth.rs:84-103 | decoding accepts exactly letters of either case, the digits 2 to 7, `=` and spaces |
| `Totp.Truncate` | crates/camelmailer-core/src/auth.rs:122-128 | all index reads are in bounds and the result fits in 31 bits |
| `Totp.CodeAt` | crates/camelmailer-core/src/auth.rs:115-131 | there is a code if and only if the secret decodes, and it is six decimal digits |
| `Totp.CodesShowTheRemainder` | crates/camelmailer-core/src/auth.rs:122-131 | two codes are equal if and only if the truncated values agree modulo a million |
| `Totp.BigEndianInjective` | crates/camelmailer-core/src/auth.rs:117-121 | different time steps are hashed as different messages |
| `Totp.BigEndianSpells` | crates/camelmailer-core/src/auth.rs:117-121 | the bytes of a counter, most significant first, spell it in base 256 |
| `Totp.DecimalFaithful` | crates/camelmailer-core/src/auth.rs:126-130 | the printed digits read as the number they print |
| `Totp.TruncateTakesFourBytes` | crates/camelmailer-core/src/auth.rs:122-128 | the truncated value is spelled by the four bytes at the offset in the last nibble, most significant first and without the sign bit |
| `Totp.CodeIsTruncatedMac` | crates/camelmailer-core/src/auth.rs:115-131 | a code reads as the truncated hash, under the decoded secret, of the eight bytes that spell the number of whole steps, modulo a million |
| `Totp.SearchDrifts` | crates/camelmailer-core/src/auth.rs:139-145 | the loop finds a code if and only if one of the three drifted times yields it |
| `Totp.VerifyTotp` | crates/camelmailer-core/src/auth.rs:135-146 | a code is accepted if and only if it is the code of the current step or a neighbour, clamped at the ends of u64 |
| `Totp.WindowCoversDrift` | crates/camelmailer-core/src/auth.rs:133-146 | the step of a code is in the window at every time within thirty seconds of its issue |
| `Totp.IssuedCodeAccepted` | crates/camelmailer-core/src/auth.rs:115-146 | the code of a time is accepted at every time within thirty seconds of it |
| `Totp.WindowEnds` | crates/camelmailer-core/src/auth.rs:133-146 | at a distance of sixty seconds or more it is not |
| `FoldedHeaders.KeptWholeHeaders` | crates/camelmailer-core/src/bounce.rs:295-329 | the kept lines are exactly the headers that stay, each whole with its folded lines, in order |
| `FoldedHeaders.HeadersPartition` | crates/camelmailer-core/src/bounce.rs:295-329 | grouping lines into folded headers loses and reorders nothing |
| `BounceTokenLoops.AddMessageTokenHeader` | crates/camelmailer-core/src/bounce.rs:290-329 | the rewriter's loop puts the token header before the kept header lines and the bytes from the first empty line on |
| `BounceTokenLoops.OriginalMessageTokens` | crates/camelmailer-core/src/bounce.rs:336-361 | the scanner's loop returns the distinct tokens in order of first occurrence |
| `BounceTokenLoops.TrimAscii` | crates/camelmailer-core/src/bounce.rs:368-376 | the two loops remove exactly the leading and trailing whitespace |
| `BounceToken.TokensAfterInsertion` | crates/camelmailer-core/src/bounce.rs:290-361 | the rewritten message holds the inserted token and then the tokens from the first empty line on, with repeats |
| `BounceToken.TrustedExtraction` | crates/camelmailer-core/src/bounce.rs:290-361 | extraction yields the inserted token first and then the other distinct tokens found from the first empty line on; no top-level header contributes |
| `BounceToken.RewrittenParts` | crates/camelmailer-core/src/bounce.rs:290-329 | the bytes from the first empty line on are unchanged |
| `BounceToken.Replacement` | crates/camelmailer-core/src/bounce.rs:290-329 | for tokens without a newline, inserting a and then b equals inserting b alone if and only if the message does not start with a space or tab |
| `BounceToken.KeptAreWholeHeaders` | crates/camelmailer-core/src/bounce.rs:295-329 | the rewriter keeps whole folded headers |
| `BounceExact.BodyStarts` | crates/camelmailer-core/src/bounce.rs:295-329 | the headers end at the first empty line, or at the end of the message |
| `BounceExact.FoldedLines` | crates/camelmailer-core/src/bounce.rs:315-315 | a line is folded under the one before it if and only if it starts with a space or tab |
| `BounceExact.DroppedNames` | crates/camelmailer-core/src/bounce.rs:316-321 | a header is dropped if and only if its text before the first colon is one of the two token names in any case |
| `BounceExact.HeadersFolded` | crates/camelmailer-core/src/bounce.rs:295-329 | a header is a first line and the lines folded under it, and only the first header of a message can start folded |
| `BounceExact.StartsWithHeader` | crates/camelmailer-core/src/bounce.rs:290-295 | the rewritten message starts with the trusted header on a line of its own |
| `BounceExact.TokenExactly` | crates/camelmailer-core/src/bounce.rs:336-361 | a line holds a token if and only if it has a token name up to its first colon, white space, and then one to sixty-four letters and digits and no more |
| `BounceExact.TokensOfLines` | crates/camelmailer-core/src/bounce.rs:336-361 | whole lines in front of a message contribute their tokens in front |
| `BounceExact.OneLineTokens` | crates/camelmailer-core/src/bounce.rs:336-361 | a single line contributes what it holds, whatever its ending |
| `BounceExact.UniqueExactly` | crates/camelmailer-core/src/bounce.rs:336-361 | the extracted tokens are those found, each once, in the order in which they were first found |
| `LoginLockout.Account.SetLoginState` | crates/camelmailer-api/src/auth_api.rs:220-226 | the stored counter and lock are replaced, a missing login time leaves the old one |
| `LoginLockout.Account.Login` | crates/camelmailer-api/src/auth_api.rs:198-277 | outcome and stored state of one login, for every combination of disabled, locked, password and code |
| `LoginLockout.LoginSucceeds` | crates/camelmailer-api/src/auth_api.rs:190-277 | a login succeeds if and only if the account is enabled and unlocked, the password is right and, where one is required, the code is right |
| `LoginLockout.LoginRefusals` | crates/camelmailer-api/src/auth_api.rs:190-275 | which refusal is answered, each by an exact condition |
| `LoginLockout.LoginStores` | crates/camelmailer-api/src/auth_api.rs:220-278 | a wrong password or code raises the counter by one and locks at the limit for the lockout time, a success clears both and records the time, any other answer stores nothing |
| `LoginLockout.ZeroLimitIsOne` | crates/camelmailer-api/src/auth_api.rs:221-223 | every run under a limit of zero has the outcomes and the stored state it has under a limit of one |
| `LoginLockout.PaidStep` | crates/camelmailer-api/src/auth_api.rs:198-277 | every login keeps the potential: wrong guesses so far are paid for by elapsed lockouts |
| `LoginLockout.LockoutBound` | crates/camelmailer-api/src/auth_api.rs:198-277 | a run with k wrong guesses and r successful logins takes at least (k - m - r(m - 1)) lockouts, so (k - m) lockouts without a login |
| `LoginLockout.BoundIsTight` | crates/camelmailer-api/src/auth_api.rs:198-277 | for every k there is a run of k wrong guesses that takes exactly k - m lockouts, or no time below the limit |
| `SendStore.CommitIsAtomic` | crates/camelmailer-core/src/store.rs:557-630 | a commit appends the plan's messages under consecutive ids or changes nothing |
| `SendStore.FindByRecord` | crates/camelmailer-core/src/store.rs:536-555 | a lookup replays the stored response if and only if an unexpired record has the payload and operation, and is new if and only if none is unexpired |
| `SendStore.ResultsFollowPlan` | crates/camelmailer-core/src/store.rs:577-617 | every planned item is answered in its place, by a row per recipient in order or by its own error |
| `SendStore.PruneExactly` | crates/camelmailer-core/src/store.rs:632-639 | pruning keeps exactly the unexpired records and every message |
| `SendStore.MemoryStore.IdempotencyResult` | crates/camelmailer-core/src/store.rs:536-555 | new, replay or conflict, by expiry, payload and operation |
| `SendStore.MemoryStore.InsertSendOperation` | crates/camelmailer-core/src/store.rs:557-630 | the loop stores one row per recipient and one result per item, and the record with them, or replays or refuses |
| `SendStore.MemoryStore.PruneAt` | crates/camelmailer-core/src/store.rs:632-639 | exactly the expired records go, and their number is returned |
| `Idempotency.StepKeeps` | crates/camelmailer-api/src/server_api.rs:655-725 | every step of every request, in any order, keeps the invariant that ties records, log and answers |
| `Idempotency.RunKeeps` | crates/camelmailer-api/src/server_api.rs:762-840 | so does every interleaving |
| `Idempotency.OncePerWindow` | crates/camelmailer-api/src/server_api.rs:266-271 | of two plans stored under one key in a run of any length, the later one was stored no earlier than a retention window after the arrival of the request that stored the earlier one |
| `Idempotency.SlowRequest` | crates/camelmailer-api/src/server_api.rs:266-271 | the bound is met: for every commit delay some run stores two plans under one key exactly the rest of the window apart, and at the same instant when the delay is a window or more |
| `Idempotency.LivePlanAnswers` | crates/camelmailer-api/src/server_api.rs:282-309 | over every interleaving of any length, a request that succeeds while a stored plan under its key is unexpired returns that plan's response and has its payload and operation |
| `Idempotency.RetryIsReplayed` | crates/camelmailer-api/src/server_api.rs:282-309 | at every step that asks the store, a request whose key has an unexpired plan of its payload and operation is answered with that plan's response, and nothing else changes |
| `Idempotency.OtherPayloadConflicts` | crates/camelmailer-api/src/server_api.rs:282-309 | while that plan is unexpired, a request with another payload or operation is refused and nothing is stored |
| `Idempotency.ConflictExactly` | crates/camelmailer-api/src/server_api.rs:282-309 | a key conflict is answered if and only if an unexpired plan under the key differs in payload or operation |
| `Idempotency.MissGoesOn` | crates/camelmailer-api/src/server_api.rs:655-725 | with no unexpired plan under its key a request goes on to prepare, stores its plan under the next message ids and answers it, or answers its own error |
| `Idempotency.LookupByLog` | crates/camelmailer-core/src/store.rs:536-555 | what the tables answer is determined by the plans stored so far |
| `Idempotency.OneLivePlan` | crates/camelmailer-api/src/server_api.rs:655-690 | at most one plan under a key is unexpired at any time |
| `Idempotency.Idempotent` | crates/camelmailer-api/src/server_api.rs:655-725 | over every interleaving of any length, two successes under one key agree in response, payload and operation, or were answered from two plans of which the later was stored no earlier than a retention window after the arrival of the request that stored the earlier |
| `Idempotency.OnePlanWithinRetention` | crates/camelmailer-api/src/server_api.rs:655-725 | before any record can expire a key has one stored plan, and every success under it returns its response |
| `Idempotency.OwnErrorMeansNothingStored` | crates/camelmailer-api/src/server_api.rs:715-725 | a single send returns its own preparation error only if no unexpired plan under its key was stored by its reconcile step |
| `Idempotency.MessagesAreStoredOnce` | crates/camelmailer-api/src/server_api.rs:655-690 | the message table is exactly the messages of the stored plans; replays and conflicts add none |
| `Idempotency.SingleSendRenders` | crates/camelmailer-api/src/server_api.rs:693-713 | a stored answer replayed to a single send is always renderable |
| `BatchQuota.StricterEnforcesBoth` | crates/camelmailer-core/src/send_limit.rs:81-119 | the stricter allowance admits a count if and only if both do |
| `BatchQuota.PrepareBatch` | crates/camelmailer-api/src/server_api.rs:822-832 | the batch loop prepares every entry on top of the recipients accepted before it |
| `BatchQuota.BatchIsOneByOne` | crates/camelmailer-api/src/server_api.rs:822-832 | a batch decides exactly as its entries sent one after the other |
| `BatchQuota.BatchSplits` | crates/camelmailer-api/src/server_api.rs:822-832 | a batch of xs and ys is the batch of xs and then the batch of ys with usage raised by what xs stored |
| `BatchQuota.GateIsExact` | crates/camelmailer-api/src/server_api.rs:360-407 | an entry passes if and only if it fits both limits, and the error code names a limit it does not fit |
| `BatchQuota.AcceptedExactly` | crates/camelmailer-api/src/server_api.rs:360-407 | an entry is accepted if and only if it has a sender and a recipient, its organization is not suspended, its recipients fit both limits on top of those before it, and no later check refuses it |
| `BatchQuota.RefusedBecause` | crates/camelmailer-api/src/server_api.rs:360-407 | the error of every refusal: the first check that fails and, of two limits, the one that leaves less room |
| `BatchQuota.BatchRespectsLimits` | crates/camelmailer-api/src/server_api.rs:360-407 | accepted recipients never exceed what either limit has left |
| `BatchQuota.BatchKeepsEntries` | crates/camelmailer-api/src/server_api.rs:549-652 | one plan item per entry, in order, each fanned out to the to, cc and bcc recipients in order |
| `CampaignStore.Store.Edit` | crates/camelmailer-api/src/server_api.rs:2887-2945 | only a planned campaign changes, and its status follows the schedule |
| `CampaignStore.Store.SendNow` | crates/camelmailer-api/src/server_api.rs:2947-3004 | only a planned campaign starts sending |
| `CampaignStore.Store.Cancel` | crates/camelmailer-api/src/server_api.rs:3006-3050 | only a planned campaign is canceled |
| `CampaignStore.Store.ClaimDue` | crates/camelmailer-core/src/server_store.rs:1698-1716 | exactly the due campaigns move to sending, and their ids are returned in increasing order, each once |
| `CampaignStore.Store.SetProgress` | crates/camelmailer-core/src/server_store.rs:1718-1735 | progress, status and completion time of one campaign are replaced, no other changes |
| `CampaignStore.Store.Expand` | crates/camelmailer-api/src/server_api.rs:2409-2488 | the batched loop writes nondecreasing progress once per batch and ends at the number of successful enqueues |
| `CampaignStore.SuccessesCount` | crates/camelmailer-api/src/server_api.rs:2409-2488 | progress is the number of successes among the outcomes |
| `CampaignStore.CreatedStarts` | crates/camelmailer-api/src/server_api.rs:2787-2824 | a new campaign sends at once, waits for its time or stays a draft, and has sent nothing |
| `CampaignStore.EditedSchedule` | crates/camelmailer-api/src/server_api.rs:2887-2945 | an edit of the schedule sets the time, and the status with it, and changes nothing else |
| `CampaignLifecycle.StepKeeps` | crates/camelmailer-api/src/server_api.rs:2887-3101 | every handler, scheduler and expansion step keeps the invariant that ties campaigns to expansions |
| `CampaignLifecycle.StepMoves` | crates/camelmailer-api/src/server_api.rs:2641-2644 | every step moves every campaign along the lifecycle and never lowers progress |
| `CampaignLifecycle.Lifecycle` | crates/camelmailer-api/src/server_api.rs:2787-3101 | over every run no status goes back, a sending campaign is never canceled, a finished or canceled one never changes and progress never decreases |
| `CampaignLifecycle.ExpandedAtMostOnce` | crates/camelmailer-api/src/server_api.rs:3059-3101 | no campaign is expanded twice, and only one that started sending is |
| `CampaignLifecycle.PlannedScheduleTime` | crates/camelmailer-api/src/server_api.rs:2787-2824 | a planned campaign has a send time if and only if it is scheduled |
| `CampaignLifecycle.FinalProgress` | crates/camelmailer-api/src/server_api.rs:2409-2488 | a delivered campaign shows the number of successful enqueues over all listed subscribers, a failed one has sent nothing |
| `CampaignLifecycle.PolledProgress` | crates/camelmailer-api/src/server_api.rs:2409-2488 | while a campaign expands it shows the successes of the batches completed so far |
| `CampaignLifecycle.StatusChanges` | crates/camelmailer-api/src/server_api.rs:2641-3101 | exactly which step gives a campaign each status it did not have |
| `CampaignLifecycle.StepsTakeEffect` | crates/camelmailer-api/src/server_api.rs:2887-3101 | send-now, cancel, the scheduler's claim, a failed or an empty listing and completion do what they are for |
| `CampaignRaces.StepDoubles` | crates/camelmailer-api/src/server_api.rs:2947-3004 | with checks and writes as separate steps, one step gives a campaign a second expansion if and only if it spawns one for a campaign that has one |
| `CampaignRaces.ExpandedTwice` | crates/camelmailer-api/src/server_api.rs:2887-3101 | over every interleaved run no campaign is expanded twice if and only if no step respawns |
| `CampaignRaces.FreshWritesExpandOnce` | crates/camelmailer-api/src/server_api.rs:2887-3101 | no campaign is expanded twice in a run whose writes all find their campaign still planned |
| `CampaignRaces.FirstOvertakenWrite` | crates/camelmailer-core/src/server_store.rs:1657-1696 | the first write that finds its campaign no longer planned makes a second expansion if and only if it is a send-now of an expanded campaign, and plans an expanded campaign anew if and only if it is an edit of the schedule |
| `CampaignRaces.ScheduledSendRace` | crates/camelmailer-api/src/server_api.rs:2947-3101 | from every state with a due campaign, a send-now that checks before and writes after the scheduler's claim expands it twice |
| `CampaignRaces.CanceledCampaignIsSent` | crates/camelmailer-api/src/server_api.rs:2947-3050 | from every state with a planned campaign, a send-now that checks before and writes after a cancel sends the canceled campaign |
| `Membership.Table.MembersCreate` | crates/camelmailer-api/src/memberships.rs:111-171 | adding a member, with every refusal and every failing store call; a failed membership lookup lets the write overwrite a role |
| `Membership.Table.MembersUpdate` | crates/camelmailer-api/src/memberships.rs:176-243 | changing a role, with every refusal and every failing store call |
| `Membership.Table.MembersDestroy` | crates/camelmailer-api/src/memberships.rs:245-294 | removing a member, with every refusal and every failing store call |
| `Membership.Table.EnsureMembership` | crates/camelmailer-api/src/org_sso_login.rs:675-693 | an SSO login adds a stranger with the default role, leaves a member alone and changes nothing when a store call fails |
| `Membership.CreateExactly` | crates/camelmailer-api/src/memberships.rs:111-171 | adding succeeds if and only if the role is known and grantable, the account is found and is not seen to be a member, and the write succeeds; and the table then |
| `Membership.UpdateExactly` | crates/camelmailer-api/src/memberships.rs:176-243 | changing a role succeeds if and only if the member is found, an owner acts where an owner's role is involved, an owner stays, and the write succeeds; and the table then |
| `Membership.DestroyExactly` | crates/camelmailer-api/src/memberships.rs:245-294 | removing succeeds if and only if the member is found, an owner acts on an owner, an owner stays, and the write succeeds; and the table then |
| `Membership.EnsureExactly` | crates/camelmailer-api/src/org_sso_login.rs:675-693 | an SSO login succeeds if and only if the lookup and, for a stranger, the write do, and adds exactly a stranger |
| `Membership.MemberRefusals` | crates/camelmailer-api/src/memberships.rs:176-294 | when a change or removal is answered as not found and when as forbidden |
| `Membership.LastOwnerLost` | crates/camelmailer-api/src/memberships.rs:139-161 | a step leaves an owned organization without an owner if and only if it is a create with a failed lookup and a role other than owner that names the sole owner |
| `Membership.CreateCanDemoteTheSoleOwner` | crates/camelmailer-api/src/memberships.rs:152-161 | for every acting role and every role other than owner, such a create succeeds and leaves no owner |
| `Membership.OwnerSurvives` | crates/camelmailer-api/src/memberships.rs:203-276 | an owned organization has an owner in every state of a run if and only if no step demotes the sole owner of the moment behind a failed lookup |
| `Membership.OwnerSurvivesReadableRuns` | crates/camelmailer-api/src/memberships.rs:203-276 | so it keeps one whenever the lookups of its creates succeed, whatever other store calls fail |
| `Membership.NonOwnerStep` | crates/camelmailer-api/src/memberships.rs:139-216 | a step not made by an owner or root removes exactly the owner it overwrites behind a failed lookup and adds exactly the stranger it joins over SSO as owner |
| `Membership.NonOwnersCannotTouchOwners` | crates/camelmailer-api/src/memberships.rs:139-276 | over a run without an owner or root acting, final owners were owners or joined over SSO, initial owners remain or were overwritten, and with none overwritten the owners are exactly those two groups |
| `Membership.OwnersUnchanged` | crates/camelmailer-api/src/memberships.rs:139-276 | the owners stay the same throughout such a run if and only if no SSO login joins a stranger as owner and no create overwrites an owner behind a failed lookup |
| `Membership.SsoLoginCanAddAnOwner` | crates/camelmailer-api/src/org_sso_login.rs:675-693 | one SSO login with a default role of owner makes any stranger an owner |
| `Membership.SsoKeepsRoles` | crates/camelmailer-api/src/org_sso_login.rs:675-693 | SSO logins never change the role of an existing member |
| `SpfMemo.KeyIgnoresCase` | crates/camelmailer-api/src/dns.rs:182-184 | two names share a cache entry if and only if they are equal up to ASCII case |
| `SpfMemo.MemoizingResolver.Txt` | crates/camelmailer-api/src/dns.rs:188-197 | a hit answers from the cache, a miss asks once and caches the answer, errors included |
| `SpfMemo.MemoizingResolver.IpAddresses` | crates/camelmailer-api/src/dns.rs:199-208 | the same for addresses, in a cache of its own |
| `SpfMemo.MemoizingResolver.MxHosts` | crates/camelmailer-api/src/dns.rs:210-219 | the same for mail exchangers |
| `SpfMemo.FirstAnswerWins` | crates/camelmailer-api/src/dns.rs:161-220 | names equal up to ASCII case always get the first answer |
| `SpfMemo.AskedOncePerName` | crates/camelmailer-api/src/dns.rs:161-220 | the inner resolver is asked exactly once per folded name |
| `SpfMemo.Transparent` | crates/camelmailer-api/src/dns.rs:161-220 | over a fixed case-insensitive resolver every answer is the unmemoized one |
| `Rollup.AddLaws` | crates/camelmailer-api/src/admin_overview.rs:52-76 | adding volumes is commutative and associative, with the default volume neutral |
| `Rollup.SumByCounter` | crates/camelmailer-api/src/admin_overview.rs:52-67 | every counter of a sum, of each window, is the sum of that counter over the parts |
| `Rollup.RollUp` | crates/camelmailer-api/src/admin_overview.rs:147-153 | an organization's total is the sum of its servers, which are kept in order |
| `Rollup.RankedOrders` | crates/camelmailer-api/src/admin_overview.rs:194-206 | organizations come with the largest month total first, equal totals in the order of names, each exactly once |
| `Rollup.Overview` | crates/camelmailer-api/src/admin_overview.rs:194-212 | the instance total over sorted rollups is the flat sum over all servers |
| `Rollup.GroupingIsIrrelevant` | crates/camelmailer-api/src/admin_overview.rs:194-212 | any grouping and any order of the same servers gives the same totals |
| `Rollup.FirstIsEarliest` | crates/camelmailer-api/src/admin_overview.rs:68-71 | the first activity of a sum is the earliest present anywhere, and absent only if all are |
| `Rollup.LastIsLatest` | crates/camelmailer-api/src/admin_overview.rs:72-75 | the last activity of a sum is the latest present anywhere |
| `Slug.Permalinks` | crates/camelmailer-api/src/app.rs:1702-1711 | a slug is runs of lower-case letters and digits joined by single dashes |
| `Slug.PermalinkRuns` | crates/camelmailer-api/src/app.rs:1702-1711 | a slug is all the maximal runs of letters and digits of the lower-cased name, in order, joined by dashes |
| `Slug.SplitJoin` | crates/camelmailer-api/src/app.rs:1702-1711 | splitting a slug at dashes gives back its parts |
| `Slug.PermalinkIdempotent` | crates/camelmailer-api/src/app.rs:1702-1711 | making a slug of a slug changes nothing |
| `Slug.FixedPoints` | crates/camelmailer-api/src/app.rs:1702-1711 | the strings left unchanged are exactly those in normal form |

## Left out

- Hashing, HMAC, RSA, base64 and X.509: function parameters. The signature theorems use only that a digest has 32 bytes, that base64 of 32 bytes has 44 characters, and, for signing, that decoding inverts encoding and verification accepts what was signed.
- XML parsing by roxmltree: a tree with the properties a namespace-aware parser guarantees is the input; entity expansion and the recovery of the qualified name from the source text (crates/camelmailer-api/src/xmldsig.rs:353-361) are not modelled.
- ExcC14nWriter.WriteFields: the two printing loops for declarations and attributes are one loop over name and value pairs; the spelling `xmlns` or `xmlns:p` is chosen when the pair is made.
- Sorting by the standard library: modelled as a stable insertion sort function, not as an in-place sort.
- `#default` in a PrefixList: the code treats it as a prefix like any other, and so does the model.
- Checks of a send after the quota gate (addresses, sender verification, tracking, suppression, rendering): summarized as an optional problem of the entry.
- Stored state behind SQL, row-level security and the Postgres store: the in-memory store is the model.
- Store writes whose failure the handlers ignore (login state, campaign progress) are taken to succeed; failing reads and writes of the member operations are modelled.
- LoginLockout.LockoutBound: the failed-attempt counter is unbounded; its 32-bit overflow is not modelled. Accounts that do not exist are not modelled.
- Resets of the login state by password recovery or passkeys: not steps of the lockout runs.
- CampaignLifecycle.Lifecycle: each campaign handler's check and write is one step there, as when requests do not overlap; `CampaignRaces` separates them.
- CampaignRaces.Record: an expansion may report any progress at any time; its batches are modelled in `CampaignLifecycle`.
- Member handlers: each handler's reads and write are one step, so races inside one handler are not modelled.
- Crashes of an expansion between batches: an interrupted expansion simply takes no further step.
- Organization lookup before a member operation: its failure ends the request before anything modelled happens.
- Accepting an invitation: it writes the invited role without the owner guard and is not a step of the ownership runs.
- Idempotency of template sends: they use the same protocol with other operation names and would add only constants.
- Wall clock, random tokens and request identity: parameters of the steps.
- Message bytes in the bounce modules: characters; nothing depends on their upper bound.
- Rollup.RollUp: member and server counts beside the volumes are not modelled, nor is 64-bit overflow of the counters.
- SpfMemo.MemoizingResolver.Txt: each lookup holds its lock throughout, as in the code; the DNS transport is a parameter.
- OIDC, SAML message semantics, SCIM, WebAuthn, billing, SMTP, template rendering, DSN classification, HTTP routing and JSON envelopes: outside this model.
