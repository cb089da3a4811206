/**
 * Recognition of the three built-in singleton entities every instance has under a
 * different generated id: the administrator policy, the public policy and the
 * administrator role. A record is recognised either by the fixed placeholder id the
 * export writes for it or by the metadata the platform gives it.
 */
module Defaults {
  import opened Js

  /** The symbolic ids written in place of the real default ids. */
  const AdminPolicyPlaceholder := Str("_default-admin-policy")
  const PublicPolicyPlaceholder := Str("_default-public-policy")
  const AdminRolePlaceholder := Str("_default-admin-role")
  const AdminRelationPlaceholder := Str("_default-admin-relation")
  const PublicRelationPlaceholder := Str("_default-public-relation")

  /** The platform's translation keys used as descriptions of the defaults. */
  const AdminPolicyDescription := Str("$t:admin_policy_description")
  const AdminDescription := Str("$t:admin_description")
  const PublicDescription := Str("$t:public_description")
  const AdminRoleName := Str("Administrator")

  /** One of the three placeholder ids a policy or role can carry. */
  predicate IsEntityPlaceholder(v: Value) {
    v == AdminPolicyPlaceholder || v == PublicPolicyPlaceholder || v == AdminRolePlaceholder
  }

  /** The metadata the platform gives its administrator policy. */
  predicate LooksLikeAdminPolicy(p: Record) {
    (Field(p, "description") == AdminPolicyDescription || Field(p, "description") == AdminDescription)
    && Truthy(Field(p, "admin_access"))
  }

  /** The metadata the platform gives its public policy. */
  predicate LooksLikePublicPolicy(p: Record) {
    Field(p, "description") == PublicDescription && !Truthy(Field(p, "admin_access"))
  }

  /** The metadata the platform gives its administrator role. */
  predicate LooksLikeAdminRole(r: Record) {
    Field(r, "description") == AdminDescription && Field(r, "name") == AdminRoleName
  }

  predicate IsDefaultAdminPolicy(p: Record) {
    Field(p, "id") == AdminPolicyPlaceholder || LooksLikeAdminPolicy(p)
  }

  predicate IsDefaultPublicPolicy(p: Record) {
    Field(p, "id") == PublicPolicyPlaceholder || LooksLikePublicPolicy(p)
  }

  predicate IsDefaultAdminRole(r: Record) {
    Field(r, "id") == AdminRolePlaceholder || LooksLikeAdminRole(r)
  }

  /** Because of the `admin_access` test, the metadata never marks one policy as both defaults. */
  lemma HeuristicsExclusive(p: Record)
    ensures !(LooksLikeAdminPolicy(p) && LooksLikePublicPolicy(p))
  {
  }

  /** Without a placeholder id, no policy is both the default admin and the default public policy. */
  lemma DefaultPoliciesExclusive(p: Record)
    requires !IsEntityPlaceholder(Field(p, "id"))
    ensures !(IsDefaultAdminPolicy(p) && IsDefaultPublicPolicy(p))
  {
  }

  /** Swapping a record's id for its placeholder makes it recognisable whatever its metadata. */
  lemma PlaceholderRecognised(r: Record)
    ensures IsDefaultAdminPolicy(r["id" := AdminPolicyPlaceholder])
    ensures IsDefaultPublicPolicy(r["id" := PublicPolicyPlaceholder])
    ensures IsDefaultAdminRole(r["id" := AdminRolePlaceholder])
  {
  }
}
