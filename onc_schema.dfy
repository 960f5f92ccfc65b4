/**
 * The object kinds the ONC pipeline dispatches on and the field names it reads.
 * The source compares a descriptor's address against the shared signatures of
 * onc_signature; here a kind is a tag and the field table is a parameter.
 * The names are those of components/onc/onc_constants.cc, which is not part of
 * this model.
 */
module OncSchema {
  import opened Wrappers
  import opened OncValues

  datatype Kind =
    | Toplevel
    | NetworkConfiguration
    | WiFi
    | EAP
    | L2TP
    | OpenVPN
    | IPsec
    | CertificatePattern
    | OtherKind(name: string)

  /**
   * The field table (GetFieldSignature): the kind of the value a declared
   * field holds, or None for a field the kind does not declare.
   */
  type Schema = (Kind, Bytes) -> Option<Kind>

  // toplevel_config
  const TypeKey: Bytes := "Type"
  const EncryptedConfiguration: Bytes := "EncryptedConfiguration"
  const CertificatesKey: Bytes := "Certificates"
  const NetworkConfigurationsKey: Bytes := "NetworkConfigurations"
  const GlobalNetworkConfigurationKey: Bytes := "GlobalNetworkConfiguration"

  // encrypted
  const CiphertextKey: Bytes := "Ciphertext"
  const CipherKey: Bytes := "Cipher"
  const HmacKey: Bytes := "HMAC"
  const HmacMethodKey: Bytes := "HMACMethod"
  const IvKey: Bytes := "IV"
  const IterationsKey: Bytes := "Iterations"
  const SaltKey: Bytes := "Salt"
  const StretchKey: Bytes := "Stretch"
  const Sha1: Bytes := "SHA1"
  const Aes256: Bytes := "AES256"
  const Pbkdf2: Bytes := "PBKDF2"

  // eap and vpn
  const AnonymousIdentityKey: Bytes := "AnonymousIdentity"
  const IdentityKey: Bytes := "Identity"
  const UsernameKey: Bytes := "Username"

  // certificate references (eap, ipsec and openvpn share the CA names)
  const ServerCARefsKey: Bytes := "ServerCARefs"
  const ServerCARefKey: Bytes := "ServerCARef"
  const ServerCAPEMsKey: Bytes := "ServerCAPEMs"
  const ServerCertRefKey: Bytes := "ServerCertRef"
  const ServerCertPEMKey: Bytes := "ServerCertPEM"
  const IssuerCARefKey: Bytes := "IssuerCARef"
  const IssuerCAPEMsKey: Bytes := "IssuerCAPEMs"

  // wifi
  const SsidKey: Bytes := "SSID"
  const HexSsidKey: Bytes := "HexSSID"

  // certificate and network_config
  const GuidKey: Bytes := "GUID"
  const ServerType: Bytes := "Server"
  const AuthorityType: Bytes := "Authority"
  const X509Key: Bytes := "X509"

  const RecommendedKey: Bytes := "Recommended"
}
