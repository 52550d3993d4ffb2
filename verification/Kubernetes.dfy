/** Names of Kubernetes things. */
module Kubernetes {
  datatype GVK = GVK(group: string, version: string, kind: string)

  function ApiVersion(gvk: GVK): string { if gvk.group == "" then gvk.version else gvk.group + "/" + gvk.version }

  /** isOCPSysctlAllowlistPatch. */
  predicate IsSysctlPatch(apiVersion: string, kind: string, namespace: string, name: string) {
    apiVersion == "v1" && kind == "ConfigMap" && namespace == "openshift-multus" && name == "cni-sysctl-allowlist"
  }
}
