/** The provider directory: Vagaro service-provider ids and display names, in declaration order. */
module Employees {
  import opened Wrappers

  type Directory = seq<(string, string)>

  const ProviderDirectory: Directory := [
    ("0U~8qaluNm4nlBHS1lX4Sg==", "Yully Gonzalez"),
    ("VJYp1jmJ990M8rSgmEKuCg==", "Leidy Villasmil"),
    ("ygttmkB0kqajnP3G9VFFCA==", "Elizabeth Rodriguez"),
    ("HQVVjyfx2LMBmjykVMp4uA==", "Liz Gutierrez"),
    ("G~vAH-ywuaMTU8U-mQSPSw==", "Alexandra Rumbo"),
    ("iGdlKrBiZNl~zAXcKYHAtg==", "Anaisleidys Olivert"),
    ("lLHKiHNGeN0d-CmqhnUIzg==", "Kenia Fernandez"),
    ("qloWTWPGZbaXLm62UEZezw==", "Ghislaine Rodriguez"),
    ("RL~9TokljBGmTZJrF~OONQ==", "Isabel Guerrero"),
    ("u41~oI~Elac3QmDg0IE3LQ==", "Marielbys Miranda"),
    ("DYOsnZF92isbHl0aVQtB5w==", "Alex Santiesteban"),
    ("RgW1Yi3geC8oYpX-jPt1xg==", "Mary Betandcourt"),
    ("XYSdsoZNLpg~vz42OYwQPg==", "Giselle Navarro"),
    ("hWJIChYtRdsuqlnAeIpqfA==", "Annelys Garcia"),
    ("QAAiKbzzli94LGrnJ3GX0Q==", "Yessika Delgado"),
    ("8m0Pi9tJgReoyUxrRqq-Nw==", "Fany Colome"),
    ("1f0-pADxzjo5oCJfQvqwEg==", "Elianys Vigoa"),
    ("cOuMhKYYXwez7hlBoLpnPg==", "Lily S")
  ]

  /** `providerDirectory[id]`: the name listed under an id. */
  function LookupProviderName(dir: Directory, id: string): (r: Option<string>)
    ensures r.Some? <==> exists i :: 0 <= i < |dir| && dir[i].0 == id
    ensures r.Some? ==> exists i :: 0 <= i < |dir| && dir[i] == (id, r.value)
  {
    if dir == [] then None
    else if dir[0].0 == id then Some(dir[0].1)
    else
      var r := LookupProviderName(dir[1..], id);
      assert forall i :: 0 <= i < |dir[1..]| ==> dir[1..][i] == dir[i + 1];
      r
  }

  /** Every name in the directory is non-empty. */
  lemma DirectoryNamesNonEmpty()
    ensures forall i :: 0 <= i < |ProviderDirectory| ==> ProviderDirectory[i].1 != ""
  {
  }
}
