/** The approved event table of the contract: names, signature topics and field layouts. */
module AbiTable {
  import opened Wrappers

  datatype AbiType = Address | Bytes32 | Bool | Uint8 | Uint64 | Uint256

  datatype Field = Field(name: string, abiType: AbiType, indexed: bool)

  datatype Spec =
    | AccessDecision
    | AccessRuleSet
    | Approval
    | ApprovalForAll
    | AssetMintedAndAllocated
    | AssetStatusChanged
    | EmergencyStateChanged
    | IdentityKeyReplaced
    | IdentityOffboarded
    | IdentityRegistered
    | IdentityStatusChanged
    | Paused
    | RoleAdminChanged
    | RoleGranted
    | RoleRevoked
    | Transfer
    | Unpaused

  /** The number that the 32-byte signature topic spells. */
  function Topic(spec: Spec): nat {
    match spec
    case AccessDecision => 0x94312429f260fe5dbea4725e0cbd9b951191f77a6d0dc08f455c2298b7442256
    case AccessRuleSet => 0x3b4ab6be9b7d284cf5de5eb7ca44dcc2ba048759cbb6a726491cc52b70d620fb
    case Approval => 0x8c5be1e5ebec7d5bd14f71427d1e84f3dd0314c0f7b2291e5b200ac8c7c3b925
    case ApprovalForAll => 0x17307eab39ab6107e8899845ad3d59bd9653f200f220920489ca2b5937696c31
    case AssetMintedAndAllocated => 0x91867a1b7f2f56edd0a567161e5afa13b52888641c804cb3863eb43d180107cb
    case AssetStatusChanged => 0x9386daf266029c56017df27d0827d3635a1423608822b59fd5e0fe3bb72b0e50
    case EmergencyStateChanged => 0x9ff55b2c2cd39ce39fc122ab9119a05d0f3d8d94b35ec69df732cb566b1fc070
    case IdentityKeyReplaced => 0x1fea1dd22edb774a8aa7b1252b8c6376b1307ebf761147111591064d6385ca89
    case IdentityOffboarded => 0x6aa405f69eb282372189d089ec26622c3d028747682dae0ec30ae2c76aef275b
    case IdentityRegistered => 0x209ae2eb4ff1890ce972a80ec3e167b52d41ab089135cc6430447b1430e824be
    case IdentityStatusChanged => 0x4441c59c6c1b36498a0353d4ce9279a1ec9f94cafa52b52f5a5c8f30903e064a
    case Paused => 0x62e78cea01bee320cd4e420270b5ea74000d11b0c9f74754ebdbfc544b05a258
    case RoleAdminChanged => 0xbd79b86ffe0ab8e8776151514217cd7cacd52c909f66475c3af44e129f0b00ff
    case RoleGranted => 0x2f8788117e7eff1d82e926ec794901d17c78024a50270940304540a733656f0d
    case RoleRevoked => 0xf6391f5c32d9c69d2a47ea670b442974b53935d1edc7fd64eb21e047a839171b
    case Transfer => 0xddf252ad1be2c89b69c2b068fc378daa952ba7f163c4a11628f55a4df523b3ef
    case Unpaused => 0x5db9ee0a495bf2e6ff9c91a7834c1ba4fdd244a5e8aa4e537bd38aeae4b073aa
  }

  function Name(spec: Spec): string {
    match spec
    case AccessDecision => "AccessDecision"
    case AccessRuleSet => "AccessRuleSet"
    case Approval => "Approval"
    case ApprovalForAll => "ApprovalForAll"
    case AssetMintedAndAllocated => "AssetMintedAndAllocated"
    case AssetStatusChanged => "AssetStatusChanged"
    case EmergencyStateChanged => "EmergencyStateChanged"
    case IdentityKeyReplaced => "IdentityKeyReplaced"
    case IdentityOffboarded => "IdentityOffboarded"
    case IdentityRegistered => "IdentityRegistered"
    case IdentityStatusChanged => "IdentityStatusChanged"
    case Paused => "Paused"
    case RoleAdminChanged => "RoleAdminChanged"
    case RoleGranted => "RoleGranted"
    case RoleRevoked => "RoleRevoked"
    case Transfer => "Transfer"
    case Unpaused => "Unpaused"
  }

  function Fields(spec: Spec): seq<Field> {
    match spec
    case AccessDecision =>
      [Field("requester", Address, true), Field("tokenId", Uint256, true), Field("action", Bytes32, true),
       Field("granted", Bool, false)]
    case AccessRuleSet =>
      [Field("tokenId", Uint256, true), Field("action", Bytes32, true), Field("requester", Address, true),
       Field("allowed", Bool, false), Field("expiresAt", Uint64, false), Field("actor", Address, false)]
    case Approval =>
      [Field("owner", Address, true), Field("approved", Address, true), Field("tokenId", Uint256, true)]
    case ApprovalForAll =>
      [Field("owner", Address, true), Field("operator", Address, true), Field("approved", Bool, false)]
    case AssetMintedAndAllocated =>
      [Field("tokenId", Uint256, true), Field("owner", Address, true), Field("assetId", Bytes32, true),
       Field("metadataHash", Bytes32, false)]
    case AssetStatusChanged =>
      [Field("tokenId", Uint256, true), Field("status", Uint8, false), Field("actor", Address, true)]
    case EmergencyStateChanged =>
      [Field("paused", Bool, false)]
    case IdentityKeyReplaced =>
      [Field("oldSubject", Address, true), Field("newSubject", Address, true), Field("newDidHash", Bytes32, true)]
    case IdentityOffboarded =>
      [Field("subject", Address, true), Field("reason", Bytes32, true)]
    case IdentityRegistered =>
      [Field("subject", Address, true), Field("didHash", Bytes32, true)]
    case IdentityStatusChanged =>
      [Field("subject", Address, true), Field("isActive", Bool, false)]
    case Paused =>
      [Field("account", Address, false)]
    case RoleAdminChanged =>
      [Field("role", Bytes32, true), Field("previousAdminRole", Bytes32, true), Field("newAdminRole", Bytes32, true)]
    case RoleGranted =>
      [Field("role", Bytes32, true), Field("account", Address, true), Field("sender", Address, true)]
    case RoleRevoked =>
      [Field("role", Bytes32, true), Field("account", Address, true), Field("sender", Address, true)]
    case Transfer =>
      [Field("from", Address, true), Field("to", Address, true), Field("tokenId", Uint256, true)]
    case Unpaused =>
      [Field("account", Address, false)]
  }

  /** The lookup by signature topic. */
  function ByTopic(topic: nat): Option<Spec> {
    if topic == 0x94312429f260fe5dbea4725e0cbd9b951191f77a6d0dc08f455c2298b7442256 then Some(AccessDecision)
    else if topic == 0x3b4ab6be9b7d284cf5de5eb7ca44dcc2ba048759cbb6a726491cc52b70d620fb then Some(AccessRuleSet)
    else if topic == 0x8c5be1e5ebec7d5bd14f71427d1e84f3dd0314c0f7b2291e5b200ac8c7c3b925 then Some(Approval)
    else if topic == 0x17307eab39ab6107e8899845ad3d59bd9653f200f220920489ca2b5937696c31 then Some(ApprovalForAll)
    else if topic == 0x91867a1b7f2f56edd0a567161e5afa13b52888641c804cb3863eb43d180107cb then
        Some(AssetMintedAndAllocated)
    else if topic == 0x9386daf266029c56017df27d0827d3635a1423608822b59fd5e0fe3bb72b0e50 then Some(AssetStatusChanged)
    else if topic == 0x9ff55b2c2cd39ce39fc122ab9119a05d0f3d8d94b35ec69df732cb566b1fc070 then Some(EmergencyStateChanged)
    else if topic == 0x1fea1dd22edb774a8aa7b1252b8c6376b1307ebf761147111591064d6385ca89 then Some(IdentityKeyReplaced)
    else if topic == 0x6aa405f69eb282372189d089ec26622c3d028747682dae0ec30ae2c76aef275b then Some(IdentityOffboarded)
    else if topic == 0x209ae2eb4ff1890ce972a80ec3e167b52d41ab089135cc6430447b1430e824be then Some(IdentityRegistered)
    else if topic == 0x4441c59c6c1b36498a0353d4ce9279a1ec9f94cafa52b52f5a5c8f30903e064a then Some(IdentityStatusChanged)
    else if topic == 0x62e78cea01bee320cd4e420270b5ea74000d11b0c9f74754ebdbfc544b05a258 then Some(Paused)
    else if topic == 0xbd79b86ffe0ab8e8776151514217cd7cacd52c909f66475c3af44e129f0b00ff then Some(RoleAdminChanged)
    else if topic == 0x2f8788117e7eff1d82e926ec794901d17c78024a50270940304540a733656f0d then Some(RoleGranted)
    else if topic == 0xf6391f5c32d9c69d2a47ea670b442974b53935d1edc7fd64eb21e047a839171b then Some(RoleRevoked)
    else if topic == 0xddf252ad1be2c89b69c2b068fc378daa952ba7f163c4a11628f55a4df523b3ef then Some(Transfer)
    else if topic == 0x5db9ee0a495bf2e6ff9c91a7834c1ba4fdd244a5e8aa4e537bd38aeae4b073aa then Some(Unpaused)
    else None
  }

  /** The topics are distinct, so the lookup finds a spec exactly under its own topic. */
  lemma ByTopicExact(topic: nat, spec: Spec)
    ensures ByTopic(topic) == Some(spec) <==> topic == Topic(spec)
    ensures Topic(spec) < 0x1_0000000000000000_0000000000000000_0000000000000000_0000000000000000
  {
    match spec
    case AccessDecision =>
    case AccessRuleSet =>
    case Approval =>
    case ApprovalForAll =>
    case AssetMintedAndAllocated =>
    case AssetStatusChanged =>
    case EmergencyStateChanged =>
    case IdentityKeyReplaced =>
    case IdentityOffboarded =>
    case IdentityRegistered =>
    case IdentityStatusChanged =>
    case Paused =>
    case RoleAdminChanged =>
    case RoleGranted =>
    case RoleRevoked =>
    case Transfer =>
    case Unpaused =>
  }

  /** The length, the first and the ninth character of a name, which already tell all names apart. */
  function Mark(spec: Spec): (nat, char, char) {
    match spec
    case AccessDecision => (14, 'A', 'c')
    case AccessRuleSet => (13, 'A', 'l')
    case Approval => (8, 'A', ' ')
    case ApprovalForAll => (14, 'A', 'F')
    case AssetMintedAndAllocated => (23, 'A', 't')
    case AssetStatusChanged => (18, 'A', 't')
    case EmergencyStateChanged => (21, 'E', 'y')
    case IdentityKeyReplaced => (19, 'I', 'K')
    case IdentityOffboarded => (18, 'I', 'O')
    case IdentityRegistered => (18, 'I', 'R')
    case IdentityStatusChanged => (21, 'I', 'S')
    case Paused => (6, 'P', ' ')
    case RoleAdminChanged => (16, 'R', 'n')
    case RoleGranted => (11, 'R', 't')
    case RoleRevoked => (11, 'R', 'k')
    case Transfer => (8, 'T', ' ')
    case Unpaused => (8, 'U', ' ')
  }

  lemma NameHasMark(spec: Spec)
    ensures |Name(spec)| == Mark(spec).0
    ensures Name(spec)[0] == Mark(spec).1
    ensures |Name(spec)| > 8 ==> Name(spec)[8] == Mark(spec).2
    ensures |Name(spec)| <= 8 ==> Mark(spec).2 == ' '
  {
    match spec
    case AccessDecision =>
    case AccessRuleSet =>
    case Approval =>
    case ApprovalForAll =>
    case AssetMintedAndAllocated =>
    case AssetStatusChanged =>
    case EmergencyStateChanged =>
    case IdentityKeyReplaced =>
    case IdentityOffboarded =>
    case IdentityRegistered =>
    case IdentityStatusChanged =>
    case Paused =>
    case RoleAdminChanged =>
    case RoleGranted =>
    case RoleRevoked =>
    case Transfer =>
    case Unpaused =>
  }

  lemma NamesDistinct(a: Spec, b: Spec)
    requires Name(a) == Name(b)
    ensures a == b
  {
    NameHasMark(a);
    NameHasMark(b);
    assert Mark(a) == Mark(b);
    match a
    case AccessDecision =>
    case AccessRuleSet =>
    case Approval =>
    case ApprovalForAll =>
    case AssetMintedAndAllocated =>
    case AssetStatusChanged =>
    case EmergencyStateChanged =>
    case IdentityKeyReplaced =>
    case IdentityOffboarded =>
    case IdentityRegistered =>
    case IdentityStatusChanged =>
    case Paused =>
    case RoleAdminChanged =>
    case RoleGranted =>
    case RoleRevoked =>
    case Transfer =>
    case Unpaused =>
  }
}
